/**
  The course of a traversal, told from the outside: which invocation consumes which behaviour of
  the script, what the list is at each of the traversal's own invocations, whom it passes over,
  and where it stops. It stops at the first of its own invocations whose behaviour says so.
 */
module CallbackCourse {
  import opened CallbackSpec

  /** What the k-th invocation of a run does; beyond the script's end nothing, and the traversal goes on. */
  function Wish(script: Script, k: nat): Behaviour { if k < |script| then script[k] else Behaviour([], true) }

  /** The script after k invocations. */
  function From(script: Script, k: nat): Script { if k <= |script| then script[k..] else [] }

  lemma FromFrom(script: Script, d: nat, k: nat)
    ensures From(From(script, d), k) == From(script, d + k) && Wish(From(script, d), k) == Wish(script, d + k)
  {
  }

  // ---------------------------------------------------------------- one behaviour per invocation

  lemma {:induction false} TraverseConsumes(todo: seq<nat>, a: Listing, script: Script)
    ensures var r := Traverse(todo, a, script); r.script == From(script, |r.trace|)
    decreases |script|, 1, |todo|
  {
    if todo == [] {
    } else if todo[0] !in a.order || todo[0] >= |a.made| {
      TraverseConsumes(todo[1..], a, script);
    } else {
      var r := Invoke(todo[0], a, script);
      InvokeConsumes(todo[0], a, script);
      if r.done {
        TraverseConsumes(todo[1..], r.list, r.script);
        FromFrom(script, |r.trace|, |Traverse(todo[1..], r.list, r.script).trace|);
      }
    }
  }

  lemma {:induction false} InvokeConsumes(x: nat, a: Listing, script: Script)
    requires x < |a.made|
    ensures var r := Invoke(x, a, script); r.script == From(script, |r.trace|)
    decreases |script|, 0
  {
    if script != [] {
      RunOpsConsumes(script[0].ops, Triggered(a, x), script[1..]);
      FromFrom(script, 1, |RunOps(script[0].ops, Triggered(a, x), script[1..]).trace|);
    }
  }

  /** Each invocation of a run, nested ones included, consumes one behaviour, in the order of the trace. */
  lemma {:induction false} RunOpsConsumes(ops: seq<Op>, a: Listing, script: Script)
    ensures var r := RunOps(ops, a, script); r.script == From(script, |r.trace|)
    decreases |script|, 2, |ops|
  {
    if ops != [] {
      var r := if ops[0].Dispatch? then Traverse(a.order, a, script) else Ran(Apply(a, ops[0]), script, [], [], true);
      if ops[0].Dispatch? { TraverseConsumes(a.order, a, script); }
      RunOpsConsumes(ops[1..], r.list, r.script);
      FromFrom(script, |r.trace|, |RunOps(ops[1..], r.list, r.script).trace|);
    }
  }

  // ---------------------------------------------------------------- what a callback does

  /** The operations of a callback are done one after the other, each on what the ones before have left. */
  lemma {:induction false} OpsInTurn(first: seq<Op>, last: seq<Op>, a: Listing, script: Script)
    ensures var r := RunOps(first, a, script);
            var t := RunOps(last, r.list, r.script);
            RunOps(first + last, a, script) == Ran(t.list, t.script, r.trace + t.trace, [], true)
    decreases |script|, |first|
  {
    if first == [] {
      assert first + last == last;
      var t := RunOps(last, a, script);
      assert [] + t.trace == t.trace;
    } else {
      var r := if first[0].Dispatch? then Traverse(a.order, a, script)
               else Ran(Apply(a, first[0]), script, [], [], true);
      assert (first + last)[1..] == first[1..] + last;
      OpsInTurn(first[1..], last, r.list, r.script);
      var m := RunOps(first[1..], r.list, r.script);
      var t := RunOps(last, m.list, m.script);
      assert r.trace + (m.trace + t.trace) == r.trace + m.trace + t.trace;
    }
  }

  /** A dispatch that nobody disturbs, made by a callback, calls every linked callback in order. */
  lemma UndisturbedDispatch(a: Listing)
    requires Wellformed(a)
    ensures RunOps([Dispatch], a, []).trace == a.order
  {
    UndisturbedTraversal(a);
    var r := Traverse(a.order, a, []);
    assert [Dispatch][1..] == [] && RunOps([], r.list, r.script).trace == [];
    assert a.order + [] == a.order;
  }

  // ---------------------------------------------------------------- the course

  /**
    For each of a traversal's own invocations: its place in the snapshot, its place in the trace
    of all invocations, and the list it finds; at the end, the length of the trace and the list left.
   */
  datatype Course = Course(pos: seq<nat>, at: seq<nat>, lists: seq<Listing>)

  /** A stretch of invocations is that of x, with its wrapper, and all that its behaviour sets off. */
  predicate Effect(behaviour: Behaviour, rest: Script, stretch: seq<nat>, x: nat, before: Listing, after: Listing)
  {
    && x in before.order && x < |before.made|
    && var r := RunOps(behaviour.ops, Triggered(before, x), rest);
       stretch == [x] + r.trace && after == r.list
  }

  /** The invocations from..to of the trace are those of x and its k-th behaviour, k being its place. */
  predicate Leg(script: Script, trace: seq<nat>, x: nat, from: nat, to: nat, before: Listing, after: Listing)
  {
    from < to <= |trace| && Effect(Wish(script, from), From(script, from + 1), trace[from..to], x, before, after)
  }

  /** Nobody at the positions from..to of the snapshot is on the list. */
  predicate Gone(todo: seq<nat>, from: nat, to: nat, a: Listing)
  {
    to <= |todo| && forall k :: from <= k < to ==> todo[k] !in a.order
  }

  /** The position of the snapshot from which the i-th own invocation is looked for. */
  function Next(c: Course, i: nat): nat
    requires i <= |c.pos|
  {
    if i == 0 then 0 else c.pos[i - 1] + 1
  }

  ghost predicate Sized(c: Course, own: seq<nat>) { |c.pos| == |own| && |c.at| == |c.lists| == |own| + 1 }

  /** The i-th callback invoked is the next of the snapshot which is on the list. */
  ghost predicate Found(c: Course, i: nat, todo: seq<nat>, own: seq<nat>)
    requires Sized(c, own) && i < |own|
  {
    && Next(c, i) <= c.pos[i] < |todo| && own[i] == todo[c.pos[i]]
    && Gone(todo, Next(c, i), c.pos[i], c.lists[i])
  }

  ghost predicate LegAt(c: Course, i: nat, script: Script, own: seq<nat>, trace: seq<nat>)
    requires Sized(c, own) && i < |own|
  {
    Leg(script, trace, own[i], c.at[i], c.at[i + 1], c.lists[i], c.lists[i + 1])
  }

  /** The i-th own invocation is that of the next callback of the snapshot which is on the list. */
  ghost predicate Stage(c: Course, i: nat, todo: seq<nat>, script: Script, own: seq<nat>, trace: seq<nat>)
    requires Sized(c, own) && i < |own|
  {
    Found(c, i, todo, own) && LegAt(c, i, script, own, trace)
  }

  /** The behaviour of the i-th own invocation lets the traversal go on. */
  predicate GoesOn(c: Course, i: nat, script: Script) { i < |c.at| && Wish(script, c.at[i]).proceed }

  /** r is the outcome of a traversal of todo that took this course. */
  ghost predicate Took(c: Course, todo: seq<nat>, a: Listing, script: Script, r: Ran)
  {
    var n := |r.own|;
    && Sized(c, r.own) && c.at[0] == 0 && c.lists[0] == a && c.at[n] == |r.trace| && c.lists[n] == r.list
    && (forall i {:trigger Stage(c, i, todo, script, r.own, r.trace)} :: 0 <= i < n ==>
          Stage(c, i, todo, script, r.own, r.trace))
    && (forall i {:trigger GoesOn(c, i, script)} :: 0 <= i < n - 1 ==> GoesOn(c, i, script))
    && (r.done <==> n == 0 || GoesOn(c, n - 1, script))
    && (r.done ==> Gone(todo, Next(c, n), |todo|, r.list))
  }

  function Shifted(s: seq<nat>, d: nat): (t: seq<nat>)
    ensures |t| == |s| && forall i :: 0 <= i < |s| ==> t[i] == s[i] + d
  {
    seq(|s|, i requires 0 <= i < |s| => s[i] + d)
  }

  lemma LegLater(script: Script, first: seq<nat>, rest: seq<nat>, x: nat, from: nat, to: nat, b: Listing, c: Listing)
    requires Leg(From(script, |first|), rest, x, from, to, b, c)
    ensures Leg(script, first + rest, x, from + |first|, to + |first|, b, c)
  {
    var d := |first|;
    FromFrom(script, d, from);
    FromFrom(script, d, from + 1);
    SliceLater(first, rest, from, to);
    assert From(script, from + d + 1) == From(From(script, d), from + 1);
    assert Effect(Wish(script, from + d), From(script, from + d + 1), (first + rest)[from + d..to + d], x, b, c);
  }

  lemma SliceLater(first: seq<nat>, rest: seq<nat>, from: nat, to: nat)
    requires from <= to <= |rest|
    ensures (first + rest)[from + |first|..to + |first|] == rest[from..to]
  {
  }

  lemma GoneLater(todo: seq<nat>, from: nat, to: nat, a: Listing)
    requires todo != [] && Gone(todo[1..], from, to, a)
    ensures Gone(todo, from + 1, to + 1, a)
  {
    forall k | from + 1 <= k < to + 1 ensures todo[k] !in a.order { assert todo[k] == todo[1..][k - 1]; }
  }

  // ---------------------------------------------------------------- passing over a callback

  function Passed(c: Course): Course { c.(pos := Shifted(c.pos, 1)) }

  lemma PassedStage(c: Course, i: nat, todo: seq<nat>, a: Listing, script: Script, own: seq<nat>, trace: seq<nat>)
    requires todo != [] && todo[0] !in a.order && Sized(c, own) && i < |own| && c.lists[0] == a
    requires Stage(c, i, todo[1..], script, own, trace)
    ensures Sized(Passed(c), own) && Stage(Passed(c), i, todo, script, own, trace)
  {
    GoneLater(todo, Next(c, i), c.pos[i], c.lists[i]);
  }

  lemma PassedTook(c: Course, todo: seq<nat>, a: Listing, script: Script, r: Ran)
    requires todo != [] && todo[0] !in a.order && Took(c, todo[1..], a, script, r)
    ensures Took(Passed(c), todo, a, script, r)
  {
    var d, n := Passed(c), |r.own|;
    forall i | 0 <= i < n ensures Stage(d, i, todo, script, r.own, r.trace) {
      assert Stage(c, i, todo[1..], script, r.own, r.trace);
      PassedStage(c, i, todo, a, script, r.own, r.trace);
    }
    forall i | 0 <= i < n ensures GoesOn(d, i, script) == GoesOn(c, i, script) {}
    if r.done { GoneLater(todo, Next(c, n), |todo| - 1, r.list); }
  }

  // ---------------------------------------------------------------- an invocation first

  function Joined(a: Listing, first: nat, c: Course): Course
  {
    Course([0] + Shifted(c.pos, 1), [0] + Shifted(c.at, first), [a] + c.lists)
  }

  lemma InvokeIsLeg(x: nat, a: Listing, script: Script)
    requires x in a.order && x < |a.made|
    ensures var r := Invoke(x, a, script); Leg(script, r.trace, x, 0, |r.trace|, a, r.list)
    ensures Invoke(x, a, script).done == Wish(script, 0).proceed
  {
    var r := Invoke(x, a, script);
    assert r.trace[0..|r.trace|] == r.trace;
  }

  lemma LegFirst(script: Script, first: seq<nat>, rest: seq<nat>, x: nat, a: Listing, b: Listing)
    requires Leg(script, first, x, 0, |first|, a, b)
    ensures Leg(script, first + rest, x, 0, |first|, a, b)
  {
    assert (first + rest)[0..|first|] == first[0..|first|];
  }

  lemma JoinedFirst(c: Course, x: nat, todo: seq<nat>, a: Listing, script: Script, first: seq<nat>, t: Ran)
    requires todo != [] && todo[0] == x && Sized(c, t.own) && c.at[0] == 0
    requires Leg(script, first, x, 0, |first|, a, c.lists[0])
    ensures Sized(Joined(a, |first|, c), [x] + t.own)
    ensures Stage(Joined(a, |first|, c), 0, todo, script, [x] + t.own, first + t.trace)
  {
    LegFirst(script, first, t.trace, x, a, c.lists[0]);
  }

  lemma JoinedAt(c: Course, i: nat, x: nat, a: Listing, n: nat, own: seq<nat>)
    requires Sized(c, own) && i < |own|
    ensures var d := Joined(a, n, c);
            && Sized(d, [x] + own) && ([x] + own)[i + 1] == own[i]
            && d.pos[i + 1] == c.pos[i] + 1 && Next(d, i + 1) == Next(c, i) + 1
            && d.at[i + 1] == c.at[i] + n && d.at[i + 2] == c.at[i + 1] + n
            && d.lists[i + 1] == c.lists[i] && d.lists[i + 2] == c.lists[i + 1]
  {
  }

  lemma JoinedFound(c: Course, i: nat, x: nat, todo: seq<nat>, a: Listing, n: nat, own: seq<nat>)
    requires todo != [] && Sized(c, own) && i < |own| && Found(c, i, todo[1..], own)
    ensures Sized(Joined(a, n, c), [x] + own) && Found(Joined(a, n, c), i + 1, todo, [x] + own)
  {
    JoinedAt(c, i, x, a, n, own);
    GoneLater(todo, Next(c, i), c.pos[i], c.lists[i]);
  }

  lemma CarriedLeg(script: Script, first: seq<nat>, rest: seq<nat>, x: nat, from: nat, to: nat, b: Listing, c: Listing,
                   d: Course, j: nat, own: seq<nat>)
    requires Leg(From(script, |first|), rest, x, from, to, b, c) && Sized(d, own) && j < |own| && own[j] == x
    requires d.at[j] == from + |first| && d.at[j + 1] == to + |first| && d.lists[j] == b && d.lists[j + 1] == c
    ensures LegAt(d, j, script, own, first + rest)
  {
    LegLater(script, first, rest, x, from, to, b, c);
  }

  lemma JoinedStage(c: Course, i: nat, x: nat, todo: seq<nat>, a: Listing, script: Script, first: seq<nat>, t: Ran)
    requires todo != [] && todo[0] == x && Sized(c, t.own) && i < |t.own|
    requires Stage(c, i, todo[1..], From(script, |first|), t.own, t.trace)
    ensures Sized(Joined(a, |first|, c), [x] + t.own)
    ensures Stage(Joined(a, |first|, c), i + 1, todo, script, [x] + t.own, first + t.trace)
  {
    JoinedFound(c, i, x, todo, a, |first|, t.own);
    JoinedAt(c, i, x, a, |first|, t.own);
    CarriedLeg(script, first, t.trace, t.own[i], c.at[i], c.at[i + 1], c.lists[i], c.lists[i + 1],
               Joined(a, |first|, c), i + 1, [x] + t.own);
  }

  lemma JoinedStages(c: Course, x: nat, todo: seq<nat>, a: Listing, script: Script, first: seq<nat>, b: Listing, t: Ran)
    requires todo != [] && todo[0] == x && Leg(script, first, x, 0, |first|, a, b)
    requires Took(c, todo[1..], b, From(script, |first|), t)
    ensures Sized(Joined(a, |first|, c), [x] + t.own)
    ensures forall i :: 0 <= i < |t.own| + 1 ==>
              Stage(Joined(a, |first|, c), i, todo, script, [x] + t.own, first + t.trace)
  {
    var d, own := Joined(a, |first|, c), [x] + t.own;
    forall i | 0 <= i < |t.own| + 1 ensures Stage(d, i, todo, script, own, first + t.trace) {
      if i == 0 {
        JoinedFirst(c, x, todo, a, script, first, t);
      } else {
        assert Stage(c, i - 1, todo[1..], From(script, |first|), t.own, t.trace);
        JoinedStage(c, i - 1, x, todo, a, script, first, t);
      }
    }
  }

  lemma JoinedGoesOn(c: Course, a: Listing, script: Script, first: nat, i: nat)
    requires i < |c.at| && c.at[0] == 0
    ensures GoesOn(Joined(a, first, c), i + 1, script) == GoesOn(c, i, From(script, first))
    ensures GoesOn(Joined(a, first, c), 0, script) == Wish(script, 0).proceed
  {
    FromFrom(script, first, c.at[i]);
  }

  lemma JoinedAllGo(c: Course, a: Listing, script: Script, first: nat, n: nat)
    requires |c.at| == n + 1 && c.at[0] == 0 && Wish(script, 0).proceed
    requires forall i {:trigger GoesOn(c, i, From(script, first))} :: 0 <= i < n - 1 ==>
               GoesOn(c, i, From(script, first))
    ensures forall i {:trigger GoesOn(Joined(a, first, c), i, script)} :: 0 <= i < n ==>
              GoesOn(Joined(a, first, c), i, script)
    ensures GoesOn(Joined(a, first, c), n, script) <==> n == 0 || GoesOn(c, n - 1, From(script, first))
  {
    forall i | 0 <= i < n ensures GoesOn(Joined(a, first, c), i, script) {
      JoinedGoesOn(c, a, script, first, if i == 0 then 0 else i - 1);
      assert i > 0 ==> GoesOn(c, i - 1, From(script, first));
    }
    JoinedGoesOn(c, a, script, first, if n == 0 then 0 else n - 1);
  }

  lemma JoinedTook(c: Course, x: nat, todo: seq<nat>, a: Listing, script: Script, first: seq<nat>, b: Listing, t: Ran)
    requires todo != [] && todo[0] == x && Leg(script, first, x, 0, |first|, a, b) && Wish(script, 0).proceed
    requires Took(c, todo[1..], b, From(script, |first|), t)
    ensures Took(Joined(a, |first|, c), todo, a, script, Ran(t.list, t.script, first + t.trace, [x] + t.own, t.done))
  {
    JoinedStages(c, x, todo, a, script, first, b, t);
    JoinedAllGo(c, a, script, |first|, |t.own|);
    if t.done { GoneLater(todo, Next(c, |t.own|), |todo| - 1, t.list); }
  }

  // ---------------------------------------------------------------- every traversal takes one

  lemma {:induction false} CourseOf(todo: seq<nat>, a: Listing, script: Script) returns (c: Course)
    requires Wellformed(a) && forall i :: 0 <= i < |todo| ==> todo[i] < |a.made|
    ensures Took(c, todo, a, script, Traverse(todo, a, script))
    decreases |script|, |todo|
  {
    if todo == [] {
      c := Course([], [0], [a]);
    } else if todo[0] !in a.order {
      c := CourseOf(todo[1..], a, script);
      PassedTook(c, todo, a, script, Traverse(todo[1..], a, script));
      c := Passed(c);
    } else {
      var x, r := todo[0], Invoke(todo[0], a, script);
      InvokeIsLeg(x, a, script);
      InvokeConsumes(x, a, script);
      InvokeGrows(x, a, script);
      if r.done {
        c := CourseOf(todo[1..], r.list, r.script);
        JoinedTook(c, x, todo, a, script, r.trace, r.list, Traverse(todo[1..], r.list, r.script));
        c := Joined(a, |r.trace|, c);
      } else {
        c := Course([0], [0, |r.trace|], [a, r.list]);
        assert Stage(c, 0, todo, script, [x], r.trace);
      }
    }
  }

  /** A dispatch stops at the first callback if that one's behaviour says so, whatever else it does. */
  lemma StopsAtOnce(a: Listing, script: Script)
    requires Wellformed(a) && a.order != [] && !Wish(script, 0).proceed
    ensures var r := Traverse(a.order, a, script); r.own == [a.order[0]] && !r.done
  {
    InvokeIsLeg(a.order[0], a, script);
  }

  // ---------------------------------------------------------------- scripts without nested dispatches

  predicate NoDispatch(ops: seq<Op>) { forall i :: 0 <= i < |ops| ==> !ops[i].Dispatch? }

  predicate Flat(script: Script) { forall i :: 0 <= i < |script| ==> NoDispatch(script[i].ops) }

  lemma {:induction false} NoDispatchNoTrace(ops: seq<Op>, a: Listing, script: Script)
    requires NoDispatch(ops)
    ensures RunOps(ops, a, script).trace == []
    decreases |ops|
  {
    if ops != [] { NoDispatchNoTrace(ops[1..], Apply(a, ops[0]), script); }
  }

  lemma FlatLeg(script: Script, trace: seq<nat>, x: nat, from: nat, to: nat, before: Listing, after: Listing)
    requires Flat(script) && Leg(script, trace, x, from, to, before, after)
    ensures to == from + 1 && trace[from] == x
  {
    NoDispatchNoTrace(Wish(script, from).ops, Triggered(before, x), From(script, from + 1));
    assert trace[from..to] == [x] && trace[from..to][0] == trace[from];
  }

  lemma {:induction false} FlatPlaces(c: Course, todo: seq<nat>, a: Listing, script: Script, r: Ran, i: nat)
    requires Flat(script) && Took(c, todo, a, script, r) && i <= |r.own|
    ensures c.at[i] == i && (i > 0 ==> i <= |r.trace| && r.trace[i - 1] == r.own[i - 1])
  {
    if i > 0 {
      var j := i - 1;
      FlatPlaces(c, todo, a, script, r, j);
      assert Stage(c, j, todo, script, r.own, r.trace);
      FlatLeg(script, r.trace, r.own[j], c.at[j], c.at[i], c.lists[j], c.lists[i]);
    }
  }

  /**
    If callbacks do not dispatch themselves, the i-th callback invoked has the i-th behaviour of the
    script: all but the last let the dispatch go on, and it ran to its end iff the last did too.
   */
  lemma FlatCourse(a: Listing, script: Script)
    requires Wellformed(a) && Flat(script)
    ensures var r := Traverse(a.order, a, script);
            && r.trace == r.own && r.script == From(script, |r.own|)
            && (forall i :: 0 <= i < |r.own| - 1 ==> Wish(script, i).proceed)
            && (r.done <==> forall i :: 0 <= i < |r.own| ==> Wish(script, i).proceed)
  {
    var r := Traverse(a.order, a, script);
    var c := CourseOf(a.order, a, script);
    FlatPlaces(c, a.order, a, script, r, |r.own|);
    forall i | 0 <= i < |r.own| ensures c.at[i] == i && r.trace[i] == r.own[i] {
      FlatPlaces(c, a.order, a, script, r, i);
      FlatPlaces(c, a.order, a, script, r, i + 1);
    }
    TraverseConsumes(a.order, a, script);
    forall i | 0 <= i < |r.own| - 1 ensures Wish(script, i).proceed { assert GoesOn(c, i, script); }
  }
}
