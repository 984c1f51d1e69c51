/**
  What a call of EventQueue does: over all runs, which items it took at its lock and why it
  answered as it did; and, run without interruption from any state, all that it changes.
 */
module EventQueueCalls {
  import opened EventQueue
  import opened EventQueueOrder

  /** processOne and takeEvent take the first pending item, the other calls all of them. */
  function Wanted(kind: Kind, queue: seq<Item>): seq<Item>
  {
    match kind
    case ProcessOne => if queue == [] then [] else [queue[0]]
    case Take => if queue == [] then [] else [queue[0]]
    case _ => queue
  }

  // ---------------------------------------------------------------- over all runs

  /** Action n of the run is a step of activity i, which is at frame f. */
  ghost predicate StepAt(actions: seq<Action>, i: nat, n: nat, f: Frame)
  {
    && n < |actions| && actions[n] == Run(i)
    && i < |Exec(actions[..n]).acts| && Exec(actions[..n]).acts[i] == f
  }

  /** At action n, call i took the items `orig` from the queue and left the rest. */
  ghost predicate TookAt(actions: seq<Action>, i: nat, n: nat, kind: Kind, orig: seq<Item>)
  {
    && StepAt(actions, i, n, ConLock(kind)) && orig != [] && orig == Wanted(kind, Exec(actions[..n]).queue)
    && orig + Exec(actions[..n + 1]).queue == Exec(actions[..n]).queue
  }

  /** At action n, call i found the list empty. */
  ghost predicate EmptyAt(actions: seq<Action>, i: nat, n: nat)
  {
    && n < |actions| && actions[n] == Run(i)
    && i < |Exec(actions[..n]).acts| && Exec(actions[..n]).queue == []
    && (Exec(actions[..n]).acts[i].ConStart? || Exec(actions[..n]).acts[i].ConLock?)
  }

  /** At action n, call i had gone through what it took, having settled the events `sent`. */
  ghost predicate ThroughAt(actions: seq<Action>, i: nat, n: nat, sent: seq<nat>)
  {
    && n < |actions| && actions[n] == Run(i) && i < |Exec(actions[..n]).acts|
    && var f := Exec(actions[..n]).acts[i]; f.ConReturn? && f.sent == sent
  }

  /** Why call i is about to answer as it does. */
  ghost predicate Answers(actions: seq<Action>, i: nat, result: bool)
  {
    if result then exists n, sent :: ThroughAt(actions, i, n, sent) && sent != []
    else (exists n :: EmptyAt(actions, i, n)) || exists n :: ThroughAt(actions, i, n, [])
  }

  /** The past of a consuming call, by how far it is. */
  ghost predicate Past(actions: seq<Action>, i: nat, f: Frame)
  {
    match f
    case ConRun(kind, orig, _, _, idle, busy, sent) =>
      |sent| == |idle| + One(busy) && exists n :: TookAt(actions, i, n, kind, orig)
    case ConReturn(kind, orig, _, idle, sent) => |sent| == |idle| && exists n :: TookAt(actions, i, n, kind, orig)
    case ConFree(_, idle) => Answers(actions, i, idle != [])
    case ConLeave(_, result) => Answers(actions, i, result)
    case ConDone(result) => Answers(actions, i, result)
    case _ => true
  }

  lemma PrefixesStay(actions: seq<Action>, a: Action, n: nat)
    requires n < |actions|
    ensures (actions + [a])[..n] == actions[..n] && (actions + [a])[..n + 1] == actions[..n + 1]
    ensures (actions + [a])[n] == actions[n]
  {
  }

  lemma TookStays(actions: seq<Action>, a: Action, i: nat, n: nat, kind: Kind, orig: seq<Item>)
    requires TookAt(actions, i, n, kind, orig)
    ensures TookAt(actions + [a], i, n, kind, orig)
  {
    PrefixesStay(actions, a, n);
  }

  lemma AnswersStay(actions: seq<Action>, a: Action, i: nat, result: bool)
    requires Answers(actions, i, result)
    ensures Answers(actions + [a], i, result)
  {
    if result {
      var n, sent :| ThroughAt(actions, i, n, sent) && sent != [];
      PrefixesStay(actions, a, n);
      assert ThroughAt(actions + [a], i, n, sent);
    } else if n :| EmptyAt(actions, i, n) {
      PrefixesStay(actions, a, n);
      assert EmptyAt(actions + [a], i, n);
    } else {
      var n :| ThroughAt(actions, i, n, []);
      PrefixesStay(actions, a, n);
      assert ThroughAt(actions + [a], i, n, []);
    }
  }

  lemma PastStays(actions: seq<Action>, a: Action, i: nat, f: Frame)
    requires Past(actions, i, f)
    ensures Past(actions + [a], i, f)
  {
    if f.ConRun? || f.ConReturn? {
      var n :| TookAt(actions, i, n, f.kind, f.orig);
      TookStays(actions, a, i, n, f.kind, f.orig);
    } else if f.ConFree? {
      AnswersStay(actions, a, i, f.idle != []);
    } else if f.ConLeave? || f.ConDone? {
      AnswersStay(actions, a, i, f.result);
    }
  }

  lemma Extended(actions: seq<Action>, a: Action)
    ensures (actions + [a])[..|actions|] == actions && (actions + [a])[..|actions| + 1] == actions + [a]
    ensures Exec(actions + [a]) == Next(Exec(actions), a)
  {
  }

  /** The two reads of the list, and the lock. */
  lemma PastTaking(actions: seq<Action>, i: nat)
    requires i < |Exec(actions).acts| && (Exec(actions).acts[i].ConStart? || Exec(actions).acts[i].ConLock?)
    ensures Past(actions + [Run(i)], i, Advance(Exec(actions), i).acts[i])
  {
    var s, longer := Exec(actions), actions + [Run(i)];
    Extended(actions, Run(i));
    if s.queue == [] {
      assert EmptyAt(longer, i, |actions|);
    } else if s.acts[i].ConLock? && Unlocked(s) {
      PastLock(actions, i);
    }
  }

  lemma PastLock(actions: seq<Action>, i: nat)
    requires var s := Exec(actions); i < |s.acts| && s.acts[i].ConLock? && Unlocked(s) && s.queue != []
    ensures Past(actions + [Run(i)], i, Advance(Exec(actions), i).acts[i])
  {
    var s := Exec(actions);
    Extended(actions, Run(i));
    LockTakesWanted(s, i);
    assert TookAt(actions + [Run(i)], i, |actions|, s.acts[i].kind, Wanted(s.acts[i].kind, s.queue));
  }

  lemma LockTakesWanted(s: State, i: nat)
    requires i < |s.acts| && s.acts[i].ConLock? && Unlocked(s) && s.queue != []
    ensures var t, orig := Advance(s, i), Wanted(s.acts[i].kind, s.queue);
            orig != [] && t.acts[i] == ConRun(s.acts[i].kind, orig, 0, [], [], false, []) && orig + t.queue == s.queue
  {
    assert s.queue[..1] == [s.queue[0]] && s.queue[..|s.queue|] == s.queue;
  }

  lemma PastRunning(actions: seq<Action>, i: nat)
    requires i < |Exec(actions).acts| && Exec(actions).acts[i].ConRun? && Past(actions, i, Exec(actions).acts[i])
    ensures Past(actions + [Run(i)], i, Advance(Exec(actions), i).acts[i])
  {
    var s := Exec(actions);
    StorageIsSound(actions);
    assert FrameOk(s.acts[i]);
    PastStays(actions, Run(i), i, s.acts[i]);
  }

  lemma PastReturning(actions: seq<Action>, i: nat)
    requires i < |Exec(actions).acts| && Exec(actions).acts[i].ConReturn? && Past(actions, i, Exec(actions).acts[i])
    ensures Past(actions + [Run(i)], i, Advance(Exec(actions), i).acts[i])
  {
    var s := Exec(actions);
    var f := s.acts[i];
    Extended(actions, Run(i));
    PastStays(actions, Run(i), i, f);
    assert ThroughAt(actions + [Run(i)], i, |actions|, f.sent);
  }

  lemma PastStep(actions: seq<Action>, i: nat)
    requires i < |Exec(actions).acts| && Past(actions, i, Exec(actions).acts[i])
    ensures Past(actions + [Run(i)], i, Advance(Exec(actions), i).acts[i])
  {
    var s := Exec(actions);
    var f := s.acts[i];
    if f.ConStart? || f.ConLock? { PastTaking(actions, i); }
    else if f.ConRun? { PastRunning(actions, i); }
    else if f.ConReturn? { PastReturning(actions, i); }
    else if f.ConFree? || f.ConLeave? || f.ConDone? { PastStays(actions, Run(i), i, f); }
  }

  lemma PastAfter(actions: seq<Action>, a: Action, i: nat)
    requires i < |Exec(actions).acts| && Past(actions, i, Exec(actions).acts[i])
    ensures i < |Next(Exec(actions), a).acts| && Past(actions + [a], i, Next(Exec(actions), a).acts[i])
  {
    var s := Exec(actions);
    if a == Run(i) {
      PastStep(actions, i);
    } else {
      if a.Run? && a.i < |s.acts| { AdvanceChangesOne(s, a.i); }
      PastStays(actions, a, i, s.acts[i]);
    }
  }

  lemma PastSpawned(actions: seq<Action>, a: Action, i: nat)
    requires |Exec(actions).acts| <= i < |Next(Exec(actions), a).acts|
    ensures Past(actions + [a], i, Next(Exec(actions), a).acts[i])
  {
    var s := Exec(actions);
    if a.Run? && a.i < |s.acts| { AdvanceChangesOne(s, a.i); }
  }

  lemma {:induction false} AlwaysPast(actions: seq<Action>, i: nat)
    requires i < |Exec(actions).acts|
    ensures Past(actions, i, Exec(actions).acts[i])
  {
    if actions != [] {
      var before, a := actions[..|actions| - 1], actions[|actions| - 1];
      assert actions == before + [a];
      if i < |Exec(before).acts| {
        AlwaysPast(before, i);
        PastAfter(before, a, i);
      } else {
        PastSpawned(before, a, i);
      }
    }
  }

  /** Over all runs, what a call holds is what it took at its lock: the first pending item, or all of them. */
  lemma HoldsWhatItTook(actions: seq<Action>, i: nat)
    requires i < |Exec(actions).acts| && Exec(actions).acts[i].ConRun?
    ensures var f := Exec(actions).acts[i]; exists n :: TookAt(actions, i, n, f.kind, f.orig)
  {
    AlwaysPast(actions, i);
  }

  /** A call that answered true has settled something; one that answered false found nothing, or nothing it wanted. */
  lemma AnsweredBecause(actions: seq<Action>, i: nat)
    requires i < |Exec(actions).acts| && Exec(actions).acts[i].ConDone?
    ensures Answers(actions, i, Exec(actions).acts[i].result)
  {
    AlwaysPast(actions, i);
  }

  // ---------------------------------------------------------------- a call run without interruption

  function Iterated<S>(f: S -> S, s: S, n: nat): S { if n == 0 then s else f(Iterated(f, s, n - 1)) }

  lemma {:induction false} IteratedSum<S>(f: S -> S, s: S, m: nat, n: nat)
    ensures Iterated(f, Iterated(f, s, m), n) == Iterated(f, s, m + n)
  {
    if n > 0 { IteratedSum(f, s, m, n - 1); }
  }

  /** A step of activity i. */
  function Moved(i: nat): State -> State { (s: State) => if i < |s.acts| then Advance(s, i) else s }

  /** Some steps of activity i, and of nobody else, lead from s to t. */
  ghost predicate Reaches(s: State, i: nat, t: State) { exists n: nat :: Iterated(Moved(i), s, n) == t }

  lemma ReachesSelf(s: State, i: nat)
    ensures Reaches(s, i, s)
  {
    assert Iterated(Moved(i), s, 0) == s;
  }

  lemma ReachesNext(s: State, i: nat)
    requires i < |s.acts|
    ensures Reaches(s, i, Advance(s, i))
  {
    assert Iterated(Moved(i), s, 0) == s;
    assert Iterated(Moved(i), s, 1) == Moved(i)(s);
  }

  lemma ReachesThen(s: State, i: nat, t: State, u: State)
    requires Reaches(s, i, t) && Reaches(t, i, u)
    ensures Reaches(s, i, u)
  {
    var m: nat :| Iterated(Moved(i), s, m) == t;
    var n: nat :| Iterated(Moved(i), t, n) == u;
    IteratedSum(Moved(i), s, m, n);
  }

  /** What is reached so is reached by a run. */
  lemma {:induction false} IteratedIsRun(actions: seq<Action>, i: nat, n: nat)
    ensures Exec(actions + seq(n, _ => Run(i))) == Iterated(Moved(i), Exec(actions), n)
  {
    if n == 0 {
      assert actions + seq(0, _ => Run(i)) == actions;
    } else {
      IteratedIsRun(actions, i, n - 1);
      OneRunMore(actions, i, n - 1);
      Extended(actions + seq(n - 1, _ => Run(i)), Run(i));
    }
  }

  lemma OneRunMore(actions: seq<Action>, i: nat, n: nat)
    ensures actions + seq(n + 1, _ => Run(i)) == actions + seq(n, _ => Run(i)) + [Run(i)]
  {
  }

  // ---------------------------------------------------------------- up to the lock

  /** s with its guard raised if that is what the call does. */
  function Raised(s: State, kind: Kind): State { if Guarded(kind) then s.(guard := s.guard + 1) else s }

  lemma PutTwice(s: State, i: nat, f: Frame, g: Frame)
    requires i < |s.acts|
    ensures Put(Put(s, i, f), i, g) == Put(s, i, g)
  {
  }

  lemma ToTheLock(s: State, i: nat, kind: Kind)
    requires i < |s.acts| && s.acts[i] == ConStart(kind) && s.queue != []
    ensures Reaches(s, i, Put(Raised(s, kind), i, ConLock(kind)))
  {
    var t := Advance(s, i);
    ReachesNext(s, i);
    if Guarded(kind) {
      ReachesNext(t, i);
      PutTwice(Raised(s, kind), i, ConGuard(kind), ConLock(kind));
      ReachesThen(s, i, t, Advance(t, i));
    }
  }

  lemma Locking(s: State, i: nat, kind: Kind)
    requires i < |s.acts| && s.acts[i] == ConLock(kind) && s.queue != [] && Unlocked(s)
    ensures var take := Wanted(kind, s.queue);
            && |take| <= |s.queue| && take == s.queue[..|take|] && take != []
            && Advance(s, i) ==
               Put(s.(queue := s.queue[|take|..]), i, ConRun(kind, take, 0, [], [], false, []))
  {
    assert s.queue[..1] == [s.queue[0]] && s.queue[..|s.queue|] == s.queue;
  }

  // ---------------------------------------------------------------- the loop

  lemma AcceptedOne(kind: Kind, items: seq<Item>, k: nat)
    requires k < |items| && items[k].event.Some?
    ensures var e := items[k].event.value;
            var yes, no := Accepted(kind, items[..k]), Rejected(kind, items[..k]);
            && Accepted(kind, items[..k + 1]) == (if Wants(kind, e) then yes + [e.id] else yes)
            && Rejected(kind, items[..k + 1]) == (if Wants(kind, e) then no else no + [items[k]])
  {
    assert items[..k + 1][..k] == items[..k];
    assert Accepted(kind, items[..k]) + [] == Accepted(kind, items[..k]);
    assert Rejected(kind, items[..k]) + [] == Rejected(kind, items[..k]);
  }

  /** What becomes of one event. */
  function Settling(kind: Kind, e: Event): seq<nat> { if Wants(kind, e) then [e.id] else [] }

  /** A call at position k of what it took, with what it has rejected, emptied and settled. */
  function Running(kind: Kind, take: seq<Item>, k: nat, idle: seq<Item>): Frame
    requires k <= |take|
  {
    ConRun(kind, take, k, Rejected(kind, take[..k]), idle, false, Accepted(kind, take[..k]))
  }

  /** s with these events settled, and activity i at f. */
  function After(s: State, i: nat, kind: Kind, sent: seq<nat>, f: Frame): State
    requires i < |s.acts|
  {
    Put(s.(fates := s.fates + AsFates(kind, sent)), i, f)
  }

  lemma AfterTwice(s: State, i: nat, kind: Kind, a: seq<nat>, f: Frame, b: seq<nat>, g: Frame)
    requires i < |s.acts|
    ensures After(After(s, i, kind, a, f), i, kind, b, g) == After(s, i, kind, a + b, g)
  {
    assert AsFates(kind, a + b) == AsFates(kind, a) + AsFates(kind, b);
    assert s.fates + AsFates(kind, a) + AsFates(kind, b) == s.fates + (AsFates(kind, a) + AsFates(kind, b));
  }

  lemma AfterNothing(s: State, i: nat, kind: Kind, f: Frame)
    requires i < |s.acts|
    ensures After(s, i, kind, [], f) == Put(s, i, f)
  {
    assert s.fates + AsFates(kind, []) == s.fates;
  }

  lemma ItemRejected(s: State, i: nat, kind: Kind, take: seq<Item>, k: nat, idle: seq<Item>)
    requires i < |s.acts| && k < |take| && s.acts[i] == Running(kind, take, k, idle)
    requires take[k].event.Some? && !Wants(kind, take[k].event.value)
    ensures Advance(s, i) == After(s, i, kind, [], Running(kind, take, k + 1, idle))
  {
    AcceptedOne(kind, take, k);
    AfterNothing(s, i, kind, Running(kind, take, k + 1, idle));
  }

  lemma ItemCleared(s: State, i: nat, take: seq<Item>, k: nat, idle: seq<Item>)
    requires i < |s.acts| && k < |take| && s.acts[i] == Running(Clear, take, k, idle) && take[k].event.Some?
    ensures Advance(s, i) ==
            After(s, i, Clear, [take[k].event.value.id], Running(Clear, take, k + 1, idle + [Item(take[k].node, None)]))
  {
    AcceptedOne(Clear, take, k);
    assert AsFates(Clear, [take[k].event.value.id]) == [Fate(take[k].event.value.id, Cleared)];
  }

  /** The frame of a call that has handed out the event at position k and not emptied its item yet. */
  function Busy(kind: Kind, take: seq<Item>, k: nat, idle: seq<Item>): Frame
    requires k < |take|
  {
    ConRun(kind, take, k, Rejected(kind, take[..k]), idle, true, Accepted(kind, take[..k + 1]))
  }

  lemma ItemHandedOut(s: State, i: nat, kind: Kind, take: seq<Item>, k: nat, idle: seq<Item>)
    requires i < |s.acts| && k < |take| && s.acts[i] == Running(kind, take, k, idle) && !kind.Clear?
    requires take[k].event.Some? && Wants(kind, take[k].event.value)
    ensures Advance(s, i) == After(s, i, kind, [take[k].event.value.id], Busy(kind, take, k, idle))
  {
    AcceptedOne(kind, take, k);
    var id := take[k].event.value.id;
    assert AsFates(kind, [id]) == [Fate(id, if kind.Take? then Taken else Dispatched)];
  }

  lemma ItemEmptied(s: State, i: nat, kind: Kind, take: seq<Item>, k: nat, idle: seq<Item>)
    requires i < |s.acts| && k < |take| && s.acts[i] == Busy(kind, take, k, idle)
    requires take[k].event.Some? && Wants(kind, take[k].event.value)
    ensures Advance(s, i) ==
            After(s, i, kind, [], Running(kind, take, k + 1, idle + [Item(take[k].node, None)]))
  {
    AcceptedOne(kind, take, k);
    AfterNothing(s, i, kind, Running(kind, take, k + 1, idle + [Item(take[k].node, None)]));
  }

  /** One item: rejected, or settled and emptied. */
  lemma OneItem(s: State, i: nat, kind: Kind, take: seq<Item>, k: nat, idle: seq<Item>) returns (more: seq<Item>)
    requires i < |s.acts| && k < |take| && s.acts[i] == Running(kind, take, k, idle) && take[k].event.Some?
    ensures var sent := Settling(kind, take[k].event.value);
            |more| == |idle| + |sent| && Reaches(s, i, After(s, i, kind, sent, Running(kind, take, k + 1, more)))
  {
    var e, t := take[k].event.value, Advance(s, i);
    ReachesNext(s, i);
    more := idle;
    if !Wants(kind, e) {
      ItemRejected(s, i, kind, take, k, idle);
    } else {
      more := idle + [Item(take[k].node, None)];
      if kind.Clear? {
        ItemCleared(s, i, take, k, idle);
      } else {
        ItemHandedOut(s, i, kind, take, k, idle);
        ItemEmptied(t, i, kind, take, k, idle);
        ReachesNext(t, i);
        ReachesThen(s, i, t, Advance(t, i));
        AfterTwice(s, i, kind, [e.id], Busy(kind, take, k, idle), [], Running(kind, take, k + 1, more));
        assert [e.id] + [] == [e.id];
      }
    }
  }

  lemma {:induction false} Looping(s: State, i: nat, kind: Kind, take: seq<Item>, k: nat, idle: seq<Item>)
    returns (more: seq<Item>, sent: seq<nat>)
    requires i < |s.acts| && k <= |take| && s.acts[i] == Running(kind, take, k, idle) && Full(take)
    ensures Accepted(kind, take) == Accepted(kind, take[..k]) + sent && |more| == |idle| + |sent|
    ensures Reaches(s, i, After(s, i, kind, sent, Running(kind, take, |take|, more)))
    decreases |take| - k
  {
    if k == |take| {
      more, sent := idle, [];
      assert take[..k] == take;
      AfterNothing(s, i, kind, s.acts[i]);
      assert s.acts[i := s.acts[i]] == s.acts;
      ReachesSelf(s, i);
    } else {
      var first := Settling(kind, take[k].event.value);
      var later := OneItem(s, i, kind, take, k, idle);
      var t := After(s, i, kind, first, Running(kind, take, k + 1, later));
      more, sent := Looping(t, i, kind, take, k + 1, later);
      AcceptedJoined(kind, take, k, sent);
      ReachesAfter(s, i, kind, first, Running(kind, take, k + 1, later), sent, Running(kind, take, |take|, more));
      sent := first + sent;
    }
  }

  lemma ReachesAfter(s: State, i: nat, kind: Kind, a: seq<nat>, f: Frame, b: seq<nat>, g: Frame)
    requires i < |s.acts| && Reaches(s, i, After(s, i, kind, a, f))
    requires Reaches(After(s, i, kind, a, f), i, After(After(s, i, kind, a, f), i, kind, b, g))
    ensures Reaches(s, i, After(s, i, kind, a + b, g))
  {
    var t := After(s, i, kind, a, f);
    ReachesThen(s, i, t, After(t, i, kind, b, g));
    AfterTwice(s, i, kind, a, f, b, g);
  }

  lemma AcceptedJoined(kind: Kind, take: seq<Item>, k: nat, sent: seq<nat>)
    requires k < |take| && take[k].event.Some? && Accepted(kind, take) == Accepted(kind, take[..k + 1]) + sent
    ensures Accepted(kind, take) == Accepted(kind, take[..k]) + (Settling(kind, take[k].event.value) + sent)
  {
    AcceptedOne(kind, take, k);
    JoinedThree(Accepted(kind, take[..k]), Settling(kind, take[k].event.value), sent);
  }

  lemma JoinedThree(a: seq<nat>, b: seq<nat>, c: seq<nat>)
    ensures a + b + c == a + (b + c)
  {
  }

  // ---------------------------------------------------------------- the way out

  /** The kept items are put back in front, the emptied ones are freed, the guard is lowered. */
  function Left(s: State, i: nat, kind: Kind, kept: seq<Item>, idle: seq<Item>): State
    requires i < |s.acts|
  {
    var t := s.(queue := kept + s.queue, free := s.free + idle, back := s.back + Ids(kept),
                guard := if Guarded(kind) then s.guard - 1 else s.guard);
    Put(t, i, ConDone(idle != []))
  }

  lemma Returning(s: State, i: nat, kind: Kind, take: seq<Item>, kept: seq<Item>, idle: seq<Item>, sent: seq<nat>)
    requires i < |s.acts| && s.acts[i] == ConReturn(kind, take, kept, idle, sent) && Unlocked(s)
    ensures Advance(s, i) ==
            Put(s.(queue := kept + s.queue, back := s.back + Ids(kept)), i, ConFree(kind, idle))
  {
    if kept == [] {
      assert kept + s.queue == s.queue && Ids(kept) == {} && s.back + {} == s.back;
    }
  }

  lemma Freeing(s: State, i: nat, kind: Kind, idle: seq<Item>)
    requires i < |s.acts| && s.acts[i] == ConFree(kind, idle)
    ensures Reaches(s, i, Put(s.(free := s.free + idle, guard := if Guarded(kind) then s.guard - 1 else s.guard), i,
                              ConDone(idle != [])))
  {
    var t := Advance(s, i);
    ReachesNext(s, i);
    ReachesNext(t, i);
    ReachesThen(s, i, t, Advance(t, i));
    var u := s.(free := s.free + idle, guard := if Guarded(kind) then s.guard - 1 else s.guard);
    PutTwice(u, i, ConLeave(kind, idle != []), ConDone(idle != []));
  }

  lemma Leaving(s: State, i: nat, kind: Kind, take: seq<Item>, kept: seq<Item>, idle: seq<Item>, sent: seq<nat>)
    requires i < |s.acts| && s.acts[i] == ConReturn(kind, take, kept, idle, sent) && Unlocked(s)
    ensures Reaches(s, i, Left(s, i, kind, kept, idle))
  {
    var u := s.(queue := kept + s.queue, back := s.back + Ids(kept));
    var t := Put(u, i, ConFree(kind, idle));
    ReachesNext(s, i);
    Returning(s, i, kind, take, kept, idle, sent);
    Freeing(t, i, kind, idle);
    var v := u.(free := s.free + idle, guard := if Guarded(kind) then s.guard - 1 else s.guard);
    PutTwice(v, i, ConFree(kind, idle), ConDone(idle != []));
    ReachesThen(s, i, t, Left(s, i, kind, kept, idle));
  }

  lemma LoopEnds(s: State, i: nat, kind: Kind, take: seq<Item>, idle: seq<Item>)
    requires i < |s.acts| && s.acts[i] == Running(kind, take, |take|, idle)
    ensures Advance(s, i) ==
            Put(s, i, ConReturn(kind, take, Rejected(kind, take), idle, Accepted(kind, take)))
  {
    assert take[..|take|] == take;
  }

  // ---------------------------------------------------------------- the whole call

  /** What the call of that kind makes of s when it is not interrupted. */
  ghost predicate Done(s: State, i: nat, kind: Kind, t: State)
    requires i < |s.acts|
  {
    var take := Wanted(kind, s.queue);
    && |take| <= |s.queue|
    && t.acts == s.acts[i := ConDone(Accepted(kind, take) != [])]
    && t.fates == s.fates + AsFates(kind, Accepted(kind, take))
    && t.queue == Rejected(kind, take) + s.queue[|take|..]
    && s.free <= t.free && |t.free| == |s.free| + |Accepted(kind, take)|
    && t.guard == s.guard && t.spliced == s.spliced && t.waiter == s.waiter && t.created == s.created && !t.fault
  }

  lemma TakingReaches(s: State, i: nat, kind: Kind)
    requires i < |s.acts| && s.acts[i] == ConStart(kind) && s.queue != [] && Unlocked(s)
    ensures var take := Wanted(kind, s.queue);
            && |take| <= |s.queue| && take == s.queue[..|take|]
            && Reaches(s, i, Put(Raised(s, kind).(queue := s.queue[|take|..]), i, Running(kind, take, 0, [])))
  {
    var take, r := Wanted(kind, s.queue), Raised(s, kind);
    var t := Put(r, i, ConLock(kind));
    ToTheLock(s, i, kind);
    Locking(t, i, kind);
    ReachesNext(t, i);
    ReachesThen(s, i, t, Advance(t, i));
    assert take[..0] == [];
    PutTwice(r.(queue := s.queue[|take|..]), i, ConLock(kind), Running(kind, take, 0, []));
  }

  lemma SettlingReaches(s: State, i: nat, kind: Kind, take: seq<Item>) returns (idle: seq<Item>)
    requires i < |s.acts| && s.acts[i] == Running(kind, take, 0, []) && Full(take) && Unlocked(s)
    ensures var u := s.(fates := s.fates + AsFates(kind, Accepted(kind, take)));
            && |idle| == |Accepted(kind, take)| && |u.acts| == |s.acts|
            && Reaches(s, i, Left(u, i, kind, Rejected(kind, take), idle))
  {
    var sent;
    idle, sent := Looping(s, i, kind, take, 0, []);
    assert take[..0] == [] && [] + sent == sent;
    var t := After(s, i, kind, sent, Running(kind, take, |take|, idle));
    var f := ConReturn(kind, take, Rejected(kind, take), idle, sent);
    LoopEnds(t, i, kind, take, idle);
    ReachesNext(t, i);
    ReachesThen(s, i, t, Put(t, i, f));
    Leaving(Put(t, i, f), i, kind, take, Rejected(kind, take), idle, sent);
    var u := s.(fates := s.fates + AsFates(kind, sent));
    LeftTwice(u, i, Running(kind, take, |take|, idle), f, kind, Rejected(kind, take), idle);
    ReachesThen(s, i, Put(t, i, f), Left(u, i, kind, Rejected(kind, take), idle));
  }

  lemma LeftTwice(u: State, i: nat, f: Frame, g: Frame, kind: Kind, kept: seq<Item>, idle: seq<Item>)
    requires i < |u.acts|
    ensures Left(Put(Put(u, i, f), i, g), i, kind, kept, idle) == Left(u, i, kind, kept, idle)
  {
  }

  lemma LeftIsDone(s: State, i: nat, kind: Kind, idle: seq<Item>)
    requires i < |s.acts| && !s.fault && |idle| == |Accepted(kind, Wanted(kind, s.queue))|
    requires var take := Wanted(kind, s.queue); |take| <= |s.queue|
    ensures var take := Wanted(kind, s.queue);
            var u := Put(Raised(s, kind).(queue := s.queue[|take|..]), i, Running(kind, take, 0, []));
            var v := u.(fates := u.fates + AsFates(kind, Accepted(kind, take)));
            Done(s, i, kind, Left(v, i, kind, Rejected(kind, take), idle))
  {
  }

  /**
    A call that is not interrupted returns. It has settled, in order, what it wanted of the items
    it was to take, put the others back in front, and answered true iff it has settled something.
   */
  lemma CallAlone(s: State, i: nat, kind: Kind) returns (t: State)
    requires Stored(s) && Unlocked(s) && i < |s.acts| && s.acts[i] == ConStart(kind)
    ensures Reaches(s, i, t) && Done(s, i, kind, t)
  {
    if s.queue == [] {
      t := Advance(s, i);
      ReachesNext(s, i);
      assert s.fates + AsFates(kind, []) == s.fates;
    } else {
      var take := Wanted(kind, s.queue);
      var u := Put(Raised(s, kind).(queue := s.queue[|take|..]), i, Running(kind, take, 0, []));
      TakingReaches(s, i, kind);
      var idle := SettlingReaches(u, i, kind, take);
      t := Left(u.(fates := u.fates + AsFates(kind, Accepted(kind, take))), i, kind, Rejected(kind, take), idle);
      ReachesThen(s, i, u, t);
      LeftIsDone(s, i, kind, idle);
    }
  }

  // ---------------------------------------------------------------- in plain words

  lemma {:induction false} AllAccepted(kind: Kind, items: seq<Item>)
    requires Full(items) && !kind.ProcessIf?
    ensures Rejected(kind, items) == [] && |Accepted(kind, items)| == |items|
    ensures forall j :: 0 <= j < |items| ==> Accepted(kind, items)[j] == items[j].event.value.id
  {
    if items != [] { AllAccepted(kind, items[..|items| - 1]); }
  }

  /** The events of the first n items have come at the end of the record, in order and in this way. */
  ghost predicate SettledFirst(s: State, t: State, n: nat, how: How)
  {
    && n <= |s.queue| && Full(s.queue) && |t.fates| == |s.fates| + n && s.fates <= t.fates
    && forall j :: 0 <= j < n ==> t.fates[|s.fates| + j] == Fate(s.queue[j].event.value.id, how)
  }

  lemma DonePlainly(s: State, i: nat, kind: Kind, t: State)
    requires Stored(s) && i < |s.acts| && !kind.ProcessIf? && Done(s, i, kind, t)
    ensures var n := |Wanted(kind, s.queue)|;
            && SettledFirst(s, t, n, if kind.Clear? then Cleared else if kind.Take? then Taken else Dispatched)
            && t.queue == s.queue[n..] && t.acts == s.acts[i := ConDone(n > 0)]
  {
    var take := Wanted(kind, s.queue);
    AllAccepted(kind, take);
    assert [] + s.queue[|take|..] == s.queue[|take|..];
  }

  /** process settles every pending event, in order; it answers false iff there was none. */
  lemma ProcessAlone(s: State, i: nat) returns (t: State)
    requires Stored(s) && Unlocked(s) && i < |s.acts| && s.acts[i] == ConStart(Process)
    ensures Reaches(s, i, t) && t.acts == s.acts[i := ConDone(s.queue != [])]
    ensures t.queue == [] && SettledFirst(s, t, |s.queue|, Dispatched)
  {
    t := CallAlone(s, i, Process);
    DonePlainly(s, i, Process, t);
  }

  /** processOne settles the first pending event only. */
  lemma ProcessOneAlone(s: State, i: nat) returns (t: State)
    requires Stored(s) && Unlocked(s) && i < |s.acts| && s.acts[i] == ConStart(ProcessOne)
    ensures Reaches(s, i, t) && t.acts == s.acts[i := ConDone(s.queue != [])]
    ensures if s.queue == [] then t.queue == [] && t.fates == s.fates
            else t.queue == s.queue[1..] && SettledFirst(s, t, 1, Dispatched)
  {
    t := CallAlone(s, i, ProcessOne);
    DonePlainly(s, i, ProcessOne, t);
  }

  /** takeEvent hands out the first pending event only. */
  lemma TakeAlone(s: State, i: nat) returns (t: State)
    requires Stored(s) && Unlocked(s) && i < |s.acts| && s.acts[i] == ConStart(Take)
    ensures Reaches(s, i, t) && t.acts == s.acts[i := ConDone(s.queue != [])]
    ensures if s.queue == [] then t.queue == [] && t.fates == s.fates
            else t.queue == s.queue[1..] && SettledFirst(s, t, 1, Taken)
  {
    t := CallAlone(s, i, Take);
    DonePlainly(s, i, Take, t);
  }

  /** clearEvents drops all pending events. */
  lemma ClearAlone(s: State, i: nat) returns (t: State)
    requires Stored(s) && Unlocked(s) && i < |s.acts| && s.acts[i] == ConStart(Clear)
    ensures Reaches(s, i, t) && t.acts == s.acts[i := ConDone(s.queue != [])]
    ensures t.queue == [] && SettledFirst(s, t, |s.queue|, Cleared)
  {
    t := CallAlone(s, i, Clear);
    DonePlainly(s, i, Clear, t);
  }

  /** processIf leaves pending exactly the events it rejects, and settles the others. */
  lemma ProcessIfAlone(s: State, i: nat, accept: set<nat>) returns (t: State)
    requires Stored(s) && Unlocked(s) && i < |s.acts| && s.acts[i] == ConStart(ProcessIf(accept))
    ensures Reaches(s, i, t) && s.fates <= t.fates && t.acts == s.acts[i := ConDone(t.fates != s.fates)]
    ensures forall x :: x in t.queue <==> x in s.queue && x.event.Some? && x.event.value.payload !in accept
    ensures forall id :: Fate(id, Dispatched) in t.fates[|s.fates|..] <==>
              exists x :: x in s.queue && Carries(x, id, accept)
  {
    var kind := ProcessIf(accept);
    t := CallAlone(s, i, kind);
    RejectedAre(kind, s.queue);
    AcceptedAre(kind, s.queue);
    var sent := Accepted(kind, s.queue);
    assert t.fates[|s.fates|..] == AsFates(kind, sent);
    assert s.queue[|s.queue|..] == [] && Rejected(kind, s.queue) + [] == Rejected(kind, s.queue);
    forall id ensures Fate(id, Dispatched) in AsFates(kind, sent) <==> id in sent {
      if id in sent {
        var j :| 0 <= j < |sent| && sent[j] == id;
        assert AsFates(kind, sent)[j] == Fate(id, Dispatched);
      }
    }
  }

  predicate Carries(x: Item, id: nat, accept: set<nat>)
  {
    x.event.Some? && x.event.value.id == id && x.event.value.payload in accept
  }

  lemma {:induction false} RejectedAre(kind: Kind, items: seq<Item>)
    requires kind.ProcessIf?
    ensures forall x :: x in Rejected(kind, items) <==>
              x in items && x.event.Some? && x.event.value.payload !in kind.accept
  {
    if items != [] {
      var n := |items| - 1;
      RejectedAre(kind, items[..n]);
      assert items == items[..n] + [items[n]];
    }
  }

  lemma {:induction false} AcceptedAre(kind: Kind, items: seq<Item>)
    requires kind.ProcessIf?
    ensures forall id :: id in Accepted(kind, items) <==> exists x :: x in items && Carries(x, id, kind.accept)
  {
    if items != [] {
      var n := |items| - 1;
      AcceptedAre(kind, items[..n]);
      assert items == items[..n] + [items[n]];
      forall id ensures id in Accepted(kind, items) <==> exists x :: x in items && Carries(x, id, kind.accept) {
        if id in Accepted(kind, items[..n]) {
          var x :| x in items[..n] && Carries(x, id, kind.accept);
          assert x in items;
        }
        assert Carries(items[n], id, kind.accept) ==> items[n] in items;
      }
    }
  }

  // ---------------------------------------------------------------- enqueue and wait

  /**
    enqueue appends its event, in a free node if there is one and in a new one otherwise, and
    wakes the consumer if it sleeps.
   */
  lemma EnqueueAlone(s: State, i: nat, payload: nat) returns (t: State)
    requires Stored(s) && Unlocked(s) && i < |s.acts| && s.acts[i] == EnqStart(payload)
    ensures Reaches(s, i, t) && t.acts == s.acts[i := EnqDone]
    ensures t.queue == s.queue + [Item(if s.free == [] then s.created else s.free[0].node, Some(Event(i, payload)))]
    ensures t.free == (if s.free == [] then [] else s.free[1..])
    ensures t.created == (if s.free == [] then s.created + 1 else s.created)
    ensures t.fates == s.fates && t.guard == s.guard && t.spliced == s.spliced + [i]
    ensures t.waiter == if s.waiter.Blocked? then Ready else s.waiter
  {
    var u := NodeReady(s, i, payload);
    var item := Item(u.acts[i].item.node, Some(Event(i, payload)));
    var v := Put(u, i, EnqSplice(item));
    ReachesNext(u, i);
    ReachesThen(s, i, u, v);
    t := Splicing(v, i, item);
    ReachesThen(s, i, v, t);
  }

  lemma NodeReady(s: State, i: nat, payload: nat) returns (u: State)
    requires Stored(s) && i < |s.acts| && s.acts[i] == EnqStart(payload)
    ensures Reaches(s, i, u) && Stored(u)
    ensures if s.free == [] then u == Put(s.(created := s.created + 1), i, EnqSet(payload, Item(s.created, None)))
            else u == Put(s.(free := s.free[1..]), i, EnqSet(payload, s.free[0]))
  {
    u := Advance(s, i);
    ReachesNext(s, i);
    StoredStep(s, Run(i));
    if s.free != [] {
      var v := Advance(u, i);
      ReachesNext(u, i);
      StoredStep(u, Run(i));
      ReachesThen(s, i, u, v);
      PutTwice(s.(free := s.free[1..]), i, EnqTake(payload), EnqSet(payload, s.free[0]));
      u := v;
    }
  }

  lemma Splicing(s: State, i: nat, item: Item) returns (t: State)
    requires i < |s.acts| && s.acts[i] == EnqSplice(item) && Unlocked(s)
    ensures Reaches(s, i, t)
    ensures t == Put(s.(queue := s.queue + [item], spliced := s.spliced + [i],
                        waiter := if s.waiter.Blocked? then Ready else s.waiter), i, EnqDone)
  {
    var u := Advance(s, i);
    var v := Advance(u, i);
    t := Advance(v, i);
    ReachesNext(s, i);
    ReachesNext(u, i);
    ReachesNext(v, i);
    ReachesThen(s, i, u, v);
    ReachesThen(s, i, v, t);
  }

  /** emptyQueue answers whether nothing is pending and nothing in flight. */
  lemma AskAlone(s: State, i: nat) returns (t: State)
    requires i < |s.acts| && s.acts[i] == AskList && Unlocked(s)
    ensures Reaches(s, i, t) && t == s.(acts := s.acts[i := AskDone(s.queue == [] && s.guard == 0)])
  {
    var u := Advance(s, i);
    t := Advance(u, i);
    ReachesNext(s, i);
    ReachesNext(u, i);
    ReachesThen(s, i, u, t);
  }

  /** wait goes to sleep if nothing is pending and nothing in flight, and returns otherwise. */
  lemma WaitAlone(s: State)
    requires s.waiter.Ready?
    ensures if s.queue == [] && s.guard == 0 then WaitStep(WaitStep(WaitStep(s))) == s.(waiter := Blocked, back := {})
            else WaitStep(s) == s.(waiter := Away) || WaitStep(WaitStep(s)) == s.(waiter := Away)
  {
  }
}
