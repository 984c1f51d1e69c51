/** The emptiness guard and the condition variable of EventQueue, over all runs of its machine. */
module EventQueueWake {
  import opened EventQueue

  // ---------------------------------------------------------------- the guard against looking empty

  /** Between raising and lowering queueEmptyCounter. */
  predicate Guarding(f: Frame)
  {
    (f.ConLock? || f.ConRun? || f.ConReturn? || f.ConFree? || f.ConLeave?) && Guarded(f.kind)
  }

  ghost predicate GuardCounts(s: State) { s.guard == Total(f => One(Guarding(f)), s.acts) }

  lemma GuardMoves(s: State, i: nat)
    requires Stored(s) && i < |s.acts|
    ensures var t := Advance(s, i); t.guard + One(Guarding(s.acts[i])) == s.guard + One(Guarding(t.acts[i]))
  {
    assert FrameOk(s.acts[i]);
  }

  lemma GuardCountsStep(s: State, a: Action)
    requires Stored(s) && GuardCounts(s)
    ensures GuardCounts(Next(s, a))
  {
    var w := (f: Frame) => One(Guarding(f));
    match a {
      case Run(i) =>
        if i < |s.acts| {
          GuardMoves(s, i);
          AdvanceChangesOne(s, i);
          TotalPut(w, s.acts, i, Advance(s, i).acts[i]);
        }
      case Spawn(f) => TotalSpawn(w, s.acts, f);
      case Wait =>
    }
  }

  lemma {:induction false} GuardIsCount(actions: seq<Action>)
    ensures GuardCounts(Exec(actions))
  {
    if actions != [] {
      var before := actions[..|actions| - 1];
      GuardIsCount(before);
      StorageIsSound(before);
      GuardCountsStep(Exec(before), actions[|actions| - 1]);
    }
  }

  lemma GuardedIsCounted(s: State, i: nat)
    requires GuardCounts(s) && i < |s.acts| && Guarding(s.acts[i])
    ensures s.guard > 0
  {
    TotalAtLeast((f: Frame) => One(Guarding(f)), s.acts, i);
  }

  /** A guarded call between raising and lowering the counter. */
  ghost predicate SomeGuarding(s: State) { exists j :: 0 <= j < |s.acts| && Guarding(s.acts[j]) }

  /** While process, processOne or processIf holds anything, the counter read of empty() answers false. */
  lemma NotEmptyWhileInFlight(actions: seq<Action>, i: nat, j: nat)
    requires i < |Exec(actions).acts| && j < |Exec(actions).acts| && Exec(actions).acts[j].AskCount?
    requires var f := Exec(actions).acts[i]; (f.ConRun? || f.ConReturn? || f.ConFree?) && Guarded(f.kind)
    ensures Exec(actions + [Run(j)]).acts[j] == AskDone(false)
  {
    GuardIsCount(actions);
    GuardedIsCounted(Exec(actions), i);
    OneMore(actions, Run(j));
  }

  lemma OneMore(actions: seq<Action>, a: Action)
    ensures Exec(actions + [a]) == Next(Exec(actions), a)
  {
    assert (actions + [a])[..|actions|] == actions;
  }

  /** Action m of the run is the list read of the empty() call i, and finds the list empty. */
  ghost predicate ListRead(actions: seq<Action>, i: nat, m: nat)
  {
    && m < |actions| && actions[m] == Run(i) && i < |Exec(actions[..m]).acts|
    && Exec(actions[..m]).acts[i].AskList? && Exec(actions[..m]).queue == []
  }

  /** Action n of the run is the counter read of the empty() call i, and no process call holds anything then. */
  ghost predicate CountRead(actions: seq<Action>, i: nat, n: nat)
  {
    && n < |actions| && actions[n] == Run(i) && i < |Exec(actions[..n]).acts|
    && Exec(actions[..n]).acts[i].AskCount? && Exec(actions[..n]).guard == 0 && !SomeGuarding(Exec(actions[..n]))
  }

  ghost predicate ReadTwice(actions: seq<Action>, i: nat)
  {
    exists m, n :: 0 <= m < n && ListRead(actions, i, m) && CountRead(actions, i, n)
  }

  /** Reads that were made stay made. */
  lemma ReadsStay(actions: seq<Action>, a: Action, i: nat, m: nat)
    ensures ListRead(actions, i, m) ==> ListRead(actions + [a], i, m)
    ensures CountRead(actions, i, m) ==> CountRead(actions + [a], i, m)
  {
    if m < |actions| { assert (actions + [a])[..m] == actions[..m]; }
  }

  lemma ReadTwiceLonger(actions: seq<Action>, a: Action, i: nat)
    requires ReadTwice(actions, i)
    ensures ReadTwice(actions + [a], i)
  {
    var m, n :| 0 <= m < n && ListRead(actions, i, m) && CountRead(actions, i, n);
    ReadsStay(actions, a, i, m);
    ReadsStay(actions, a, i, n);
  }

  /** What the empty() call i has seen, by how far it is. */
  ghost predicate Seen(actions: seq<Action>, i: nat, f: Frame)
  {
    match f
    case AskCount => exists m :: 0 <= m && ListRead(actions, i, m)
    case AskDone(result) => result ==> ReadTwice(actions, i)
    case _ => true
  }

  lemma SeenLonger(actions: seq<Action>, a: Action, i: nat, f: Frame)
    requires Seen(actions, i, f)
    ensures Seen(actions + [a], i, f)
  {
    if f.AskCount? {
      var m :| 0 <= m && ListRead(actions, i, m);
      ReadsStay(actions, a, i, m);
    } else if f.AskDone? && f.result {
      ReadTwiceLonger(actions, a, i);
    }
  }

  /** The step of an empty() call. */
  lemma SeenStep(actions: seq<Action>, i: nat)
    requires i < |Exec(actions).acts| && Seen(actions, i, Exec(actions).acts[i])
    ensures Seen(actions + [Run(i)], i, Advance(Exec(actions), i).acts[i])
  {
    var s := Exec(actions);
    var f, longer := s.acts[i], actions + [Run(i)];
    assert longer[..|actions|] == actions && longer[|actions|] == Run(i);
    if f.AskList? && s.queue == [] {
      assert ListRead(longer, i, |actions|);
    } else if f.AskCount? && s.guard == 0 {
      CountedNone(actions);
      var m :| 0 <= m && ListRead(actions, i, m);
      ReadsStay(actions, Run(i), i, m);
      assert CountRead(longer, i, |actions|);
    } else if f.AskDone? {
      SeenLonger(actions, Run(i), i, f);
    }
  }

  lemma CountedNone(actions: seq<Action>)
    requires Exec(actions).guard == 0
    ensures !SomeGuarding(Exec(actions))
  {
    var s := Exec(actions);
    GuardIsCount(actions);
    forall j | 0 <= j < |s.acts| ensures !Guarding(s.acts[j]) {
      if Guarding(s.acts[j]) { GuardedIsCounted(s, j); assert false; }
    }
  }

  lemma SeenAfter(actions: seq<Action>, a: Action, i: nat)
    requires i < |Exec(actions).acts| && Seen(actions, i, Exec(actions).acts[i])
    ensures i < |Next(Exec(actions), a).acts| && Seen(actions + [a], i, Next(Exec(actions), a).acts[i])
  {
    var s := Exec(actions);
    if a == Run(i) {
      SeenStep(actions, i);
    } else {
      if a.Run? && a.i < |s.acts| { AdvanceChangesOne(s, a.i); }
      SeenLonger(actions, a, i, s.acts[i]);
    }
  }

  lemma SpawnedHasSeen(actions: seq<Action>, a: Action, i: nat)
    requires |Exec(actions).acts| <= i < |Next(Exec(actions), a).acts|
    ensures Seen(actions + [a], i, Next(Exec(actions), a).acts[i])
  {
    var s := Exec(actions);
    if a.Run? && a.i < |s.acts| { AdvanceChangesOne(s, a.i); }
  }

  lemma {:induction false} AlwaysSeen(actions: seq<Action>, i: nat)
    requires i < |Exec(actions).acts|
    ensures Seen(actions, i, Exec(actions).acts[i])
  {
    if actions != [] {
      var before, a := actions[..|actions| - 1], actions[|actions| - 1];
      assert actions == before + [a];
      if i < |Exec(before).acts| {
        AlwaysSeen(before, i);
        SeenAfter(before, a, i);
      } else {
        SpawnedHasSeen(before, a, i);
      }
    }
  }

  /** An answer stands. */
  lemma {:induction false} AnswerStands(actions: seq<Action>, n: nat, i: nat)
    requires n <= |actions| && i < |Exec(actions[..n]).acts| && Exec(actions[..n]).acts[i].AskDone?
    ensures i < |Exec(actions).acts| && Exec(actions).acts[i] == Exec(actions[..n]).acts[i]
  {
    if n < |actions| {
      var before, a := actions[..|actions| - 1], actions[|actions| - 1];
      assert before[..n] == actions[..n];
      AnswerStands(before, n, i);
      if a.Run? && a.i < |Exec(before).acts| { AdvanceChangesOne(Exec(before), a.i); }
    } else {
      assert actions[..n] == actions;
    }
  }

  lemma AskedOnce(s: State, i: nat)
    requires i < |s.acts| && s.acts[i].AskCount? && s.guard == 0
    ensures i < |Next(s, Run(i)).acts| && Next(s, Run(i)).acts[i] == AskDone(true)
  {
  }

  lemma CountReadAnswers(actions: seq<Action>, i: nat, n: nat)
    requires CountRead(actions, i, n)
    ensures i < |Exec(actions).acts| && Exec(actions).acts[i] == AskDone(true)
  {
    assert actions[..n + 1] == actions[..n] + [Run(i)];
    OneMore(actions[..n], Run(i));
    AskedOnce(Exec(actions[..n]), i);
    AnswerStands(actions, n + 1, i);
  }

  /**
    An empty() call has answered true exactly when its own first read found the list empty and,
    at its own second read, no process call held anything. LostWakeUp shows that there need be no
    instant at which both hold.
   */
  lemma EmptyAnsweredTrue(actions: seq<Action>, i: nat)
    requires i < |Exec(actions).acts|
    ensures Exec(actions).acts[i] == AskDone(true) <==> ReadTwice(actions, i)
  {
    if Exec(actions).acts[i] == AskDone(true) { AlwaysSeen(actions, i); }
    if ReadTwice(actions, i) {
      var m, n :| 0 <= m < n && ListRead(actions, i, m) && CountRead(actions, i, n);
      CountReadAnswers(actions, i, n);
    }
  }

  // ---------------------------------------------------------------- wake-ups

  /** Appended, and still to notify or to find that there is nothing to notify about. */
  predicate AboutToNotify(f: Frame) { f.EnqCheck? || f.EnqCount? || f.EnqNotify? }

  ghost predicate SomeNotifier(s: State) { exists j :: 0 <= j < |s.acts| && AboutToNotify(s.acts[j]) }

  /** The producer of event x is on its way to notify: two steps of its own will wake the consumer. */
  predicate Announcing(s: State, x: int)
  {
    0 <= x < |s.acts| && (s.acts[x].EnqCheck? || s.acts[x].EnqNotify?)
  }

  /**
    While the consumer sleeps, each pending event is one that was put back meanwhile or has its
    producer announcing it; the consumer goes to sleep on an empty list only.
   */
  ghost predicate Wakeable(s: State)
  {
    && (!Unlocked(s) ==> s.queue == [])
    && (s.waiter.Blocked? ==>
          forall x {:trigger Announcing(s, x)} :: x in Ids(s.queue) ==> x in s.back || Announcing(s, x))
  }

  lemma IdsAt(items: seq<Item>, j: nat)
    requires j < |items| && items[j].event.Some?
    ensures items[j].event.value.id in Ids(items)
  {
  }

  lemma IdsOfSum(a: seq<Item>, b: seq<Item>)
    ensures Ids(a + b) == Ids(a) + Ids(b)
  {
    forall x | x in Ids(a) ensures x in Ids(a + b) {
      var j :| 0 <= j < |a| && a[j].event.Some? && a[j].event.value.id == x;
      assert (a + b)[j] == a[j];
    }
    forall x | x in Ids(b) ensures x in Ids(a + b) {
      var j :| 0 <= j < |b| && b[j].event.Some? && b[j].event.value.id == x;
      assert (a + b)[|a| + j] == b[j];
    }
  }

  /** What a step does to the pending events, the ones put back and the notifications. */
  lemma PendingAfter(s: State, i: nat)
    requires Stored(s) && Labelled(s) && i < |s.acts|
    ensures var t := Advance(s, i);
            && Ids(t.queue) <= Ids(s.queue) + t.back + (if s.acts[i].EnqSplice? then {i as int} else {})
            && s.back <= t.back
            && (t.waiter == s.waiter || (s.acts[i].EnqNotify? && t.waiter.Ready?))
  {
    var t, f := Advance(s, i), s.acts[i];
    assert FrameOk(f) && Label(f, i);
    if f.EnqSplice? && Unlocked(s) {
      IdsOfSum(s.queue, [f.item]);
      IdsAt([f.item], 0);
    } else if f.ConLock? && Unlocked(s) {
      var n := Grab(f.kind, s.queue);
      assert s.queue == s.queue[..n] + s.queue[n..];
      IdsOfSum(s.queue[..n], s.queue[n..]);
    } else if f.ConReturn? && Unlocked(s) && f.kept != [] {
      IdsOfSum(f.kept, s.queue);
    }
  }

  /** A pending event whose producer is at its counter read has been put back. */
  lemma WakeableAdvance(s: State, i: nat)
    requires Stored(s) && Labelled(s) && Wakeable(s) && i < |s.acts|
    ensures Wakeable(Advance(s, i))
  {
    var t, f := Advance(s, i), s.acts[i];
    PendingAfter(s, i);
    AdvanceChangesOne(s, i);
    assert Label(f, i) && FrameOk(f);
    if t.waiter.Blocked? {
      forall x | x in Ids(t.queue) ensures x in t.back || Announcing(t, x) {
        if x in Ids(s.queue) && x !in t.back {
          assert Announcing(s, x);
          StillAnnouncing(s, i, x);
        }
      }
    }
  }

  lemma StillAnnouncing(s: State, i: nat, x: int)
    requires i < |s.acts| && Announcing(s, x) && x in Ids(s.queue)
    requires Advance(s, i).waiter == s.waiter == Blocked
    ensures Announcing(Advance(s, i), x)
  {
    AdvanceChangesOne(s, i);
  }

  lemma WakeableStep(s: State, a: Action)
    requires Stored(s) && Labelled(s) && Wakeable(s)
    ensures Wakeable(Next(s, a))
  {
    var t := Next(s, a);
    match a {
      case Run(i) => if i < |s.acts| { WakeableAdvance(s, i); }
      case Wait =>
      case Spawn(f) =>
        forall x | t.waiter.Blocked? && x in Ids(t.queue) ensures x in t.back || Announcing(t, x) {
          assert x in s.back || Announcing(s, x);
        }
    }
  }

  lemma {:induction false} AlwaysWakeable(actions: seq<Action>)
    ensures Wakeable(Exec(actions))
  {
    if actions != [] {
      var before := actions[..|actions| - 1];
      AlwaysWakeable(before);
      StorageIsSound(before);
      EventsAreConserved(before);
      WakeableStep(Exec(before), actions[|actions| - 1]);
    }
  }

  /**
    In every reachable state in which the consumer sleeps and an event is pending that was not
    put back meanwhile, two further steps of the producer of that event wake the consumer.
   */
  lemma PendingIsAnnounced(actions: seq<Action>, x: nat)
    requires Exec(actions).waiter.Blocked? && x in Ids(Exec(actions).queue) && x !in Exec(actions).back
    ensures x < |Exec(actions).acts| && AboutToNotify(Exec(actions).acts[x])
    ensures Exec(actions + [Run(x)] + [Run(x)]).waiter.Ready?
  {
    var s := Exec(actions);
    AlwaysWakeable(actions);
    assert Announcing(s, x);
    OneMore(actions, Run(x));
    OneMore(actions + [Run(x)], Run(x));
  }

  /** So no wake-up is lost while nothing is put back. */
  lemma NoLostWakeUp(actions: seq<Action>)
    requires Exec(actions).waiter.Blocked? && Exec(actions).queue != [] && Exec(actions).back == {}
    ensures SomeNotifier(Exec(actions))
  {
    var s := Exec(actions);
    StorageIsSound(actions);
    EventsAreConserved(actions);
    IdsAt(s.queue, 0);
    AlwaysWakeable(actions);
    assert Announcing(s, s.queue[0].event.value.id);
  }

  // ---------------------------------------------------------------- a wake-up that is lost

  /** The consumer sleeps, something is pending, and nobody is about to notify. */
  ghost predicate Lost(s: State) { s.waiter.Blocked? && s.queue != [] && !SomeNotifier(s) }

  /** No call of processIf. */
  predicate Unselective(actions: seq<Action>)
  {
    forall j :: 0 <= j < |actions| ==> !(actions[j].Spawn? && actions[j].f.ConStart? && actions[j].f.kind.ProcessIf?)
  }

  predicate SelectiveFrame(f: Frame)
  {
    (f.ConStart? || f.ConGuard? || f.ConLock? || f.ConRun? || f.ConReturn?) && f.kind.ProcessIf?
  }

  lemma {:induction false} UnselectivePutsNothingBack(actions: seq<Action>)
    requires Unselective(actions)
    ensures Exec(actions).back == {}
    ensures forall j :: 0 <= j < |Exec(actions).acts| ==> !SelectiveFrame(Exec(actions).acts[j])
  {
    if actions != [] {
      var before, a := actions[..|actions| - 1], actions[|actions| - 1];
      UnselectivePutsNothingBack(before);
      StorageIsSound(before);
      var s := Exec(before);
      if a.Run? && a.i < |s.acts| {
        AdvanceChangesOne(s, a.i);
        assert FrameOk(s.acts[a.i]) && !SelectiveFrame(s.acts[a.i]);
      }
    }
  }

  /** Action n of the run puts events back into the queue. */
  ghost predicate PutsBack(actions: seq<Action>, n: nat)
    requires n < |actions|
  {
    var s := Exec(actions[..n]);
    && actions[n].Run? && actions[n].i < |s.acts| && Unlocked(s)
    && s.acts[actions[n].i].ConReturn? && s.acts[actions[n].i].kept != []
  }

  /** No processIf puts events back while the consumer sleeps. */
  ghost predicate Undisturbed(actions: seq<Action>)
  {
    forall n :: 0 <= n < |actions| && Exec(actions[..n]).waiter.Blocked? ==> !PutsBack(actions, n)
  }

  lemma UndisturbedShorter(actions: seq<Action>)
    requires Undisturbed(actions) && actions != []
    ensures Undisturbed(actions[..|actions| - 1])
  {
    var before := actions[..|actions| - 1];
    forall n | 0 <= n < |before| && Exec(before[..n]).waiter.Blocked? ensures !PutsBack(before, n) {
      assert before[..n] == actions[..n];
      assert !PutsBack(actions, n);
    }
  }

  lemma BackStays(s: State, i: nat)
    requires i < |s.acts|
    ensures Advance(s, i).back == s.back || (s.acts[i].ConReturn? && s.acts[i].kept != [] && Unlocked(s))
    ensures Advance(s, i).waiter.Blocked? ==> s.waiter.Blocked?
  {
  }

  lemma {:induction false} NothingPutBack(actions: seq<Action>)
    requires Undisturbed(actions)
    ensures Exec(actions).waiter.Blocked? ==> Exec(actions).back == {}
  {
    if actions != [] {
      var n := |actions| - 1;
      var a := actions[n];
      UndisturbedShorter(actions);
      NothingPutBack(actions[..n]);
      if a.Run? && a.i < |Exec(actions[..n]).acts| {
        BackStays(Exec(actions[..n]), a.i);
        assert Exec(actions[..n]).waiter.Blocked? ==> !PutsBack(actions, n);
      }
    }
  }

  /**
    No wake-up is lost in any run in which no processIf puts events back while the consumer
    sleeps: one thread that waits and then processes is such a run.
   */
  lemma SafeUndisturbed(actions: seq<Action>)
    requires Undisturbed(actions)
    ensures !Lost(Exec(actions))
  {
    NothingPutBack(actions);
    if Lost(Exec(actions)) { NoLostWakeUp(actions); assert false; }
  }

  const PICKY := ProcessIf({})
  const EVENT := Item(0, Some(Event(0, 7)))

  function Asleep(queue: seq<Item>, guard: int, acts: seq<Frame>, spliced: seq<nat>, back: set<int>): State
  {
    State(queue, [], guard, 1, acts, Blocked, spliced, [], back, false)
  }

  /**
    The consumer falls asleep. A producer appends. A processIf takes the event; the producer
    reads an empty list. The processIf puts the event back and is done; the producer reads a
    zero counter.
   */
  function LosingAction(n: nat): Action
  {
    if n < 4 then Wait
    else if n == 4 then Spawn(EnqStart(7))
    else if n < 8 then Run(0)
    else if n == 8 then Spawn(ConStart(PICKY))
    else if n < 12 then Run(1)
    else if n == 12 then Run(0)
    else if n < 18 then Run(1)
    else Run(0)
  }

  function LosingRun(n: nat): seq<Action> { seq(n, i requires 0 <= i => LosingAction(i)) }

  /** The states that it goes through. */
  function LosingState(n: nat): State
  {
    match n
    case 0 => INITIAL
    case 1 => INITIAL.(waiter := Ready)
    case 2 => INITIAL.(waiter := Counting)
    case 3 => INITIAL.(waiter := Committed)
    case 4 => INITIAL.(waiter := Blocked)
    case 5 => INITIAL.(waiter := Blocked, acts := [EnqStart(7)])
    case 6 => Asleep([], 0, [EnqSet(7, Item(0, None))], [], {})
    case 7 => Asleep([], 0, [EnqSplice(EVENT)], [], {})
    case 8 => Asleep([EVENT], 0, [EnqCheck], [0], {})
    case 9 => Asleep([EVENT], 0, [EnqCheck, ConStart(PICKY)], [0], {})
    case 10 => Asleep([EVENT], 0, [EnqCheck, ConGuard(PICKY)], [0], {})
    case 11 => Asleep([EVENT], 1, [EnqCheck, ConLock(PICKY)], [0], {})
    case 12 => Asleep([], 1, [EnqCheck, ConRun(PICKY, [EVENT], 0, [], [], false, [])], [0], {})
    case 13 => Asleep([], 1, [EnqCount, ConRun(PICKY, [EVENT], 0, [], [], false, [])], [0], {})
    case 14 => Asleep([], 1, [EnqCount, ConRun(PICKY, [EVENT], 1, [EVENT], [], false, [])], [0], {})
    case 15 => Asleep([], 1, [EnqCount, ConReturn(PICKY, [EVENT], [EVENT], [], [])], [0], {})
    case 16 => Asleep([EVENT], 1, [EnqCount, ConFree(PICKY, [])], [0], {0})
    case 17 => Asleep([EVENT], 1, [EnqCount, ConLeave(PICKY, false)], [0], {0})
    case 18 => Asleep([EVENT], 0, [EnqCount, ConDone(false)], [0], {0})
    case _ => Asleep([EVENT], 0, [EnqDone, ConDone(false)], [0], {0})
  }

  lemma LosingToAppended(n: nat)
    requires n < 8
    ensures Next(LosingState(n), LosingAction(n)) == LosingState(n + 1)
  {
  }

  lemma LosingToTaken(n: nat)
    requires 8 <= n < 13
    ensures Next(LosingState(n), LosingAction(n)) == LosingState(n + 1)
  {
    assert [EVENT][..1] == [EVENT] && [EVENT][1..] == [];
  }

  lemma LosingToReturned(n: nat)
    requires 13 <= n < 16
    ensures Next(LosingState(n), LosingAction(n)) == LosingState(n + 1)
  {
    var s, t := LosingState(n), LosingState(n + 1);
    if n == 13 {
      assert [] + [EVENT] == [EVENT];
    } else if n == 15 {
      IdsAt([EVENT], 0);
      assert {} + Ids([EVENT]) == {0} && [EVENT] + [] == [EVENT];
    }
    assert s.acts[1 := t.acts[1]] == t.acts;
  }

  lemma LosingToEnd(n: nat)
    requires 16 <= n < 19
    ensures Next(LosingState(n), LosingAction(n)) == LosingState(n + 1)
  {
  }

  lemma {:induction false} LosingReaches(n: nat)
    requires n <= 19
    ensures Exec(LosingRun(n)) == LosingState(n)
  {
    if n > 0 {
      var m := n - 1;
      LosingReaches(m);
      assert LosingRun(n) == LosingRun(m) + [LosingAction(m)];
      OneMore(LosingRun(m), LosingAction(m));
      if m < 8 { LosingToAppended(m); }
      else if m < 13 { LosingToTaken(m); }
      else if m < 16 { LosingToReturned(m); }
      else { LosingToEnd(m); }
    }
  }

  lemma LosingIsNeverEmpty(n: nat)
    requires 8 <= n <= 19
    ensures !Empty(LosingState(n))
  {
  }

  /**
    A wake-up can be lost: every call has returned, the consumer sleeps, the event is pending.
    From the append on there was no instant with nothing pending and nothing in flight, and yet
    the producer's empty() answered true.
   */
  lemma LostWakeUp()
    ensures Lost(Exec(LosingRun(19))) && Exec(LosingRun(19)).acts == [EnqDone, ConDone(false)]
    ensures forall n :: 8 <= n <= 19 ==> !Empty(Exec(LosingRun(n)))
  {
    LosingReaches(19);
    forall n | 8 <= n <= 19 ensures !Empty(Exec(LosingRun(n))) {
      LosingReaches(n);
      LosingIsNeverEmpty(n);
    }
  }

  /** Wake-ups are safe in all runs exactly when processIf is not called. */
  lemma SafeWithoutProcessIf(allowed: bool)
    ensures (forall actions: seq<Action> | allowed || Unselective(actions) :: !Lost(Exec(actions))) <==> !allowed
  {
    if allowed {
      LostWakeUp();
    } else {
      forall actions: seq<Action> | Unselective(actions) ensures !Lost(Exec(actions)) {
        UnselectivePutsNothingBack(actions);
        if Lost(Exec(actions)) { NoLostWakeUp(actions); assert false; }
      }
    }
  }
}
