/**
  eventpp's EventQueue as a machine of atomic steps. Every call of enqueue, process, processOne,
  processIf, takeEvent, clearEvents or empty is an activity with its own program counter; each locked
  region, each unlocked read and each listener call is one step, and activities interleave
  freely. Calls made by listeners are activities like any other, so the runs of the machine
  include both other threads and re-entrant use. One consumer waits on the condition variable.
  empty() is two reads, of the list and then of the counter, and so two steps.
 */
module EventQueue {

  datatype Option<T> = None | Some(value: T)

  /** An event: who enqueued it, and what the predicate of processIf sees. */
  datatype Event = Event(id: nat, payload: nat)

  /** A QueuedItem: a list node that holds an event exactly while `allocated` is set. */
  datatype Item = Item(node: nat, event: Option<Event>)

  datatype Kind = Process | ProcessOne | ProcessIf(accept: set<nat>) | Take | Clear

  datatype How = Dispatched | Taken | Cleared

  datatype Fate = Fate(id: nat, how: How)

  datatype Frame =
    | EnqStart(payload: nat)
    | EnqTake(payload: nat)               // saw a free node; about to lock the free list
    | EnqSet(payload: nat, item: Item)    // has a node; about to construct the event in it
    | EnqSplice(item: Item)               // about to lock the queue and append
    | EnqCheck                            // appended; about to read the list for doCanProcess
    | EnqCount                            // read an empty list; about to read the counter
    | EnqNotify                           // about to notify
    | EnqDone
    | ConStart(kind: Kind)
    | ConGuard(kind: Kind)                // about to raise queueEmptyCounter
    | ConLock(kind: Kind)                 // about to lock the queue and take items
    | ConRun(kind: Kind, orig: seq<Item>, k: nat, kept: seq<Item>, idle: seq<Item>, busy: bool, sent: seq<nat>)
    | ConReturn(kind: Kind, orig: seq<Item>, kept: seq<Item>, idle: seq<Item>, sent: seq<nat>)
    | ConFree(kind: Kind, idle: seq<Item>)
    | ConLeave(kind: Kind, result: bool)
    | ConDone(result: bool)
    | AskList                             // empty(): about to read the list
    | AskCount                            // read an empty list; about to read the counter
    | AskDone(result: bool)

  /**
    The waiting consumer: elsewhere; about to lock and read the list; holding the lock, about
    to read the counter; holding the lock on its way to sleep; asleep.
   */
  datatype Waiter = Away | Ready | Counting | Committed | Blocked

  /**
    The shared data, the activities, and for the record: the events appended, those settled,
    and those put back since the consumer last fell asleep.
   */
  datatype State = State(
    queue: seq<Item>, free: seq<Item>, guard: int, created: nat,
    acts: seq<Frame>, waiter: Waiter,
    spliced: seq<nat>, fates: seq<Fate>, back: set<int>, fault: bool)

  const INITIAL := State([], [], 0, 0, [], Away, [], [], {}, false)

  // ---------------------------------------------------------------- steps

  predicate Guarded(kind: Kind) { kind.Process? || kind.ProcessOne? || kind.ProcessIf? }

  /** Nothing pending and nothing held by a guarded call, both at one instant. */
  predicate Empty(s: State) { s.queue == [] && s.guard == 0 }

  /** The queue mutex is free unless the waiter holds it. */
  predicate Unlocked(s: State) { !s.waiter.Counting? && !s.waiter.Committed? }

  predicate Rejects(kind: Kind, e: Event) { kind.ProcessIf? && e.payload !in kind.accept }

  function Grab(kind: Kind, queue: seq<Item>): nat
    ensures Grab(kind, queue) <= |queue|
  {
    if (kind.ProcessOne? || kind.Take?) && queue != [] then 1 else |queue|
  }

  /** The events that items hold. */
  function Ids(items: seq<Item>): set<int>
  {
    set j | 0 <= j < |items| && items[j].event.Some? :: items[j].event.value.id
  }

  function Put(s: State, i: nat, f: Frame): State
    requires i < |s.acts|
  {
    s.(acts := s.acts[i := f])
  }

  function NewNode(s: State, i: nat, payload: nat): State
    requires i < |s.acts|
  {
    Put(s.(created := s.created + 1), i, EnqSet(payload, Item(s.created, None)))
  }

  /** One turn of a consuming loop: what happens to the item at hand. */
  function Turn(s: State, i: nat): State
    requires i < |s.acts| && s.acts[i].ConRun? && s.acts[i].k < |s.acts[i].orig|
  {
    var f := s.acts[i];
    var item := f.orig[f.k];
    if item.event.None? then s.(fault := true)
    else if f.busy then Put(s, i, f.(k := f.k + 1, idle := f.idle + [Item(item.node, None)], busy := false))
    else if Rejects(f.kind, item.event.value) then Put(s, i, f.(k := f.k + 1, kept := f.kept + [item]))
    else if f.kind.Clear? then
      Put(s.(fates := s.fates + [Fate(item.event.value.id, Cleared)]), i,
          f.(k := f.k + 1, idle := f.idle + [Item(item.node, None)], sent := f.sent + [item.event.value.id]))
    else
      Put(s.(fates := s.fates + [Fate(item.event.value.id, if f.kind.Take? then Taken else Dispatched)]), i,
          f.(busy := true, sent := f.sent + [item.event.value.id]))
  }

  /** Activity i takes its next step; a step that has to wait for the queue mutex leaves everything as it is. */
  function Advance(s: State, i: nat): State
    requires i < |s.acts|
  {
    var f := s.acts[i];
    match f
    case EnqStart(p) => if s.free == [] then NewNode(s, i, p) else Put(s, i, EnqTake(p))
    case EnqTake(p) =>
      if s.free == [] then NewNode(s, i, p)
      else Put(s.(free := s.free[1..]), i, EnqSet(p, s.free[0]))
    case EnqSet(p, item) =>
      if item.event.Some? then s.(fault := true)
      else Put(s, i, EnqSplice(Item(item.node, Some(Event(i, p)))))
    case EnqSplice(item) =>
      if !Unlocked(s) then s
      else Put(s.(queue := s.queue + [item], spliced := s.spliced + [i]), i, EnqCheck)
    case EnqCheck => Put(s, i, if s.queue == [] then EnqCount else EnqNotify)
    case EnqCount => Put(s, i, if s.guard == 0 then EnqDone else EnqNotify)
    case EnqNotify => Put(s.(waiter := if s.waiter.Blocked? then Ready else s.waiter), i, EnqDone)
    case EnqDone => s
    case ConStart(kind) =>
      Put(s, i, if s.queue == [] then ConDone(false) else if Guarded(kind) then ConGuard(kind) else ConLock(kind))
    case ConGuard(kind) => Put(s.(guard := s.guard + 1), i, ConLock(kind))
    case ConLock(kind) =>
      if !Unlocked(s) then s
      else
        var n := Grab(kind, s.queue);
        if n == 0 then Put(s, i, ConLeave(kind, false))
        else Put(s.(queue := s.queue[n..]), i, ConRun(kind, s.queue[..n], 0, [], [], false, []))
    case ConRun(kind, orig, k, kept, idle, busy, sent) =>
      if k < |orig| then Turn(s, i) else Put(s, i, ConReturn(kind, orig, kept, idle, sent))
    case ConReturn(kind, orig, kept, idle, sent) =>
      if kept == [] then Put(s, i, ConFree(kind, idle))
      else if !Unlocked(s) then s
      else Put(s.(queue := kept + s.queue, back := s.back + Ids(kept)), i, ConFree(kind, idle))
    case ConFree(kind, idle) => Put(s.(free := s.free + idle), i, ConLeave(kind, idle != []))
    case ConLeave(kind, result) =>
      Put(if Guarded(kind) then s.(guard := s.guard - 1) else s, i, ConDone(result))
    case ConDone(result) => s
    case AskList => Put(s, i, if s.queue == [] then AskCount else AskDone(false))
    case AskCount => Put(s, i, AskDone(s.guard == 0))
    case AskDone(result) => s
  }

  /** wait(): evaluate the predicate under the lock; if it fails, sleep; wake by notification or spuriously. */
  function WaitStep(s: State): State
  {
    match s.waiter
    case Away => s.(waiter := Ready)
    case Ready => s.(waiter := if s.queue == [] then Counting else Away)
    case Counting => s.(waiter := if s.guard == 0 then Committed else Away)
    case Committed => s.(waiter := Blocked, back := {})
    case Blocked => s.(waiter := Ready)
  }

  datatype Action = Spawn(f: Frame) | Run(i: nat) | Wait

  function Next(s: State, a: Action): State
  {
    match a
    case Spawn(f) => if f.EnqStart? || f.ConStart? || f.AskList? then s.(acts := s.acts + [f]) else s
    case Run(i) => if i < |s.acts| then Advance(s, i) else s
    case Wait => WaitStep(s)
  }

  function Exec(actions: seq<Action>): State
  {
    if actions == [] then INITIAL else Next(Exec(actions[..|actions| - 1]), actions[|actions| - 1])
  }

  // ---------------------------------------------------------------- storage

  predicate Full(items: seq<Item>) { forall j :: 0 <= j < |items| ==> items[j].event.Some? }
  predicate Vacant(items: seq<Item>) { forall j :: 0 <= j < |items| ==> items[j].event.None? }

  /** What an activity may hold at each point of its program. */
  predicate FrameOk(f: Frame)
  {
    match f
    case EnqSet(_, item) => item.event.None?
    case EnqSplice(item) => item.event.Some?
    case ConGuard(kind) => Guarded(kind)
    case ConRun(kind, orig, k, kept, idle, busy, sent) =>
      && k <= |orig| && (busy ==> k < |orig|) && Full(orig) && Full(kept) && Vacant(idle) && orig != []
      && (kind.ProcessIf? || kept == [])
    case ConReturn(kind, orig, kept, idle, _) => Full(kept) && Vacant(idle) && (kind.ProcessIf? || kept == [])
    case ConFree(_, idle) => Vacant(idle)
    case _ => true
  }

  ghost predicate Stored(s: State)
  {
    && !s.fault && Full(s.queue) && Vacant(s.free)
    && forall i :: 0 <= i < |s.acts| ==> FrameOk(s.acts[i])
  }

  lemma StoredTurn(s: State, i: nat)
    requires Stored(s) && i < |s.acts| && s.acts[i].ConRun? && s.acts[i].k < |s.acts[i].orig|
    ensures var t := Turn(s, i);
            !t.fault && t.queue == s.queue && t.free == s.free && |t.acts| == |s.acts| && FrameOk(t.acts[i])
  {
    assert FrameOk(s.acts[i]);
  }

  lemma StoredProducer(s: State, i: nat)
    requires Stored(s) && i < |s.acts| && Producing(s.acts[i])
    ensures var t := Advance(s, i);
            !t.fault && Full(t.queue) && Vacant(t.free) && |t.acts| == |s.acts| && FrameOk(t.acts[i])
  {
    assert FrameOk(s.acts[i]);
  }

  lemma StoredConsumer(s: State, i: nat)
    requires Stored(s) && i < |s.acts| && !Producing(s.acts[i])
    ensures var t := Advance(s, i);
            !t.fault && Full(t.queue) && Vacant(t.free) && |t.acts| == |s.acts| && FrameOk(t.acts[i])
  {
    assert FrameOk(s.acts[i]);
    if s.acts[i].ConRun? && s.acts[i].k < |s.acts[i].orig| {
      StoredTurn(s, i);
    }
  }

  lemma StoredAdvance(s: State, i: nat)
    requires Stored(s) && i < |s.acts|
    ensures var t := Advance(s, i);
            !t.fault && Full(t.queue) && Vacant(t.free) && |t.acts| == |s.acts| && FrameOk(t.acts[i])
  {
    if Producing(s.acts[i]) { StoredProducer(s, i); } else { StoredConsumer(s, i); }
  }

  lemma AdvanceChangesOne(s: State, i: nat)
    requires i < |s.acts|
    ensures |Advance(s, i).acts| == |s.acts| && Advance(s, i).acts == s.acts[i := Advance(s, i).acts[i]]
  {
  }

  lemma StoredStep(s: State, a: Action)
    requires Stored(s)
    ensures Stored(Next(s, a))
  {
    if a.Run? && a.i < |s.acts| {
      StoredAdvance(s, a.i);
      AdvanceChangesOne(s, a.i);
    }
  }

  /** No assertion in set, get or clear ever fails: every pending item holds an event, every free one does not. */
  lemma {:induction false} StorageIsSound(actions: seq<Action>)
    ensures Stored(Exec(actions))
  {
    if actions != [] {
      StorageIsSound(actions[..|actions| - 1]);
      StoredStep(Exec(actions[..|actions| - 1]), actions[|actions| - 1]);
    }
  }

  // ---------------------------------------------------------------- sums over activities

  function Total(w: Frame -> nat, acts: seq<Frame>): nat
  {
    if acts == [] then 0 else Total(w, acts[..|acts| - 1]) + w(acts[|acts| - 1])
  }

  lemma {:induction false} TotalPut(w: Frame -> nat, acts: seq<Frame>, i: nat, x: Frame)
    requires i < |acts|
    ensures Total(w, acts[i := x]) + w(acts[i]) == Total(w, acts) + w(x)
  {
    var n := |acts| - 1;
    if i < n {
      TotalPut(w, acts[..n], i, x);
      assert acts[i := x][..n] == acts[..n][i := x];
    } else {
      assert acts[i := x][..n] == acts[..n];
    }
  }

  lemma TotalSpawn(w: Frame -> nat, acts: seq<Frame>, x: Frame)
    ensures Total(w, acts + [x]) == Total(w, acts) + w(x)
  {
    assert (acts + [x])[..|acts|] == acts;
  }

  lemma {:induction false} TotalAtLeast(w: Frame -> nat, acts: seq<Frame>, i: nat)
    requires i < |acts|
    ensures w(acts[i]) <= Total(w, acts)
  {
    if i < |acts| - 1 {
      TotalAtLeast(w, acts[..|acts| - 1], i);
    }
  }

  // ---------------------------------------------------------------- list nodes are neither lost nor duplicated

  function One(b: bool): nat { if b then 1 else 0 }

  function NodeIds(items: seq<Item>): seq<nat> { seq(|items|, j requires 0 <= j < |items| => items[j].node) }

  /** How often node x occurs in a list. */
  function Uses(items: seq<Item>, x: nat): nat { multiset(NodeIds(items))[x] }

  lemma UsesSum(a: seq<Item>, b: seq<Item>, x: nat)
    ensures Uses(a + b, x) == Uses(a, x) + Uses(b, x)
  {
    assert NodeIds(a + b) == NodeIds(a) + NodeIds(b);
  }

  lemma UsesSplit(a: seq<Item>, n: nat, x: nat)
    requires n <= |a|
    ensures Uses(a, x) == Uses(a[..n], x) + Uses(a[n..], x)
  {
    UsesSum(a[..n], a[n..], x);
    assert a == a[..n] + a[n..];
  }

  lemma UsesOne(y: Item, x: nat)
    ensures Uses([y], x) == One(y.node == x)
  {
    assert NodeIds([y]) == [y.node];
  }

  lemma UsesFirst(a: seq<Item>, k: nat, x: nat)
    requires k < |a|
    ensures Uses(a[k..], x) == One(a[k].node == x) + Uses(a[k + 1..], x)
  {
    UsesSum([a[k]], a[k + 1..], x);
    UsesOne(a[k], x);
    assert a[k..] == [a[k]] + a[k + 1..];
  }

  lemma UsesLast(a: seq<Item>, y: Item, x: nat)
    ensures Uses(a + [y], x) == Uses(a, x) + One(y.node == x)
  {
    UsesSum(a, [y], x);
    UsesOne(y, x);
  }

  function FrameUses(f: Frame, x: nat): nat
  {
    match f
    case EnqSet(_, item) => One(item.node == x)
    case EnqSplice(item) => One(item.node == x)
    case ConRun(_, orig, k, kept, idle, _, _) =>
      Uses(orig[if k <= |orig| then k else 0..], x) + Uses(kept, x) + Uses(idle, x)
    case ConReturn(_, _, kept, idle, _) => Uses(kept, x) + Uses(idle, x)
    case ConFree(_, idle) => Uses(idle, x)
    case _ => 0
  }

  lemma TurnMovesNode(s: State, i: nat, x: nat)
    requires Stored(s) && i < |s.acts| && s.acts[i].ConRun? && s.acts[i].k < |s.acts[i].orig|
    ensures var t := Turn(s, i);
            t.queue == s.queue && t.free == s.free && t.created == s.created && |t.acts| == |s.acts|
            && FrameUses(t.acts[i], x) == FrameUses(s.acts[i], x)
  {
    var f := s.acts[i];
    assert FrameOk(f);
    UsesFirst(f.orig, f.k, x);
    UsesLast(f.kept, f.orig[f.k], x);
    UsesLast(f.idle, Item(f.orig[f.k].node, None), x);
  }

  /** Node x is where it was, or is the node just created. */
  ghost predicate NodeKept(s: State, t: State, i: nat, x: nat)
    requires i < |s.acts| && |t.acts| == |s.acts|
  {
    Uses(t.queue, x) + Uses(t.free, x) + FrameUses(t.acts[i], x) + One(x < s.created) ==
    Uses(s.queue, x) + Uses(s.free, x) + FrameUses(s.acts[i], x) + One(x < t.created)
  }

  lemma StartMovesNode(s: State, i: nat, x: nat)
    requires i < |s.acts| && (s.acts[i].EnqStart? || s.acts[i].EnqSet?)
    ensures NodeKept(s, Advance(s, i), i, x)
  {
  }

  lemma TakeMovesNode(s: State, i: nat, x: nat)
    requires i < |s.acts| && s.acts[i].EnqTake?
    ensures NodeKept(s, Advance(s, i), i, x)
  {
    var t := Advance(s, i);
    if s.free != [] {
      UsesFirst(s.free, 0, x);
      assert s.free[0..] == s.free;
      assert t.acts[i] == EnqSet(s.acts[i].payload, s.free[0]);
    }
  }

  lemma SpliceMovesNode(s: State, i: nat, x: nat)
    requires i < |s.acts| && s.acts[i].EnqSplice?
    ensures NodeKept(s, Advance(s, i), i, x)
  {
    UsesLast(s.queue, s.acts[i].item, x);
  }

  lemma LockMovesNode(s: State, i: nat, x: nat)
    requires i < |s.acts| && s.acts[i].ConLock?
    ensures NodeKept(s, Advance(s, i), i, x)
  {
    var t, n := Advance(s, i), Grab(s.acts[i].kind, s.queue);
    assert t.free == s.free && t.created == s.created;
    if t != s && n > 0 {
      UsesSplit(s.queue, n, x);
      assert t.queue == s.queue[n..] && t.acts[i] == ConRun(s.acts[i].kind, s.queue[..n], 0, [], [], false, []);
      assert s.queue[..n][0..] == s.queue[..n];
      assert Uses([], x) == 0;
    }
  }

  lemma ReturnMovesNode(s: State, i: nat, x: nat)
    requires i < |s.acts| && s.acts[i].ConReturn?
    ensures NodeKept(s, Advance(s, i), i, x)
  {
    var t, f := Advance(s, i), s.acts[i];
    UsesSum(f.kept, s.queue, x);
    assert t.free == s.free && t.created == s.created;
    if t != s {
      assert t.acts[i] == ConFree(f.kind, f.idle);
      assert f.kept == [] ==> Uses(f.kept, x) == 0;
      assert t.queue == if f.kept == [] then s.queue else f.kept + s.queue;
    }
  }

  lemma FreeMovesNode(s: State, i: nat, x: nat)
    requires i < |s.acts| && s.acts[i].ConFree?
    ensures NodeKept(s, Advance(s, i), i, x)
  {
    UsesSum(s.free, s.acts[i].idle, x);
  }

  lemma RunMovesNode(s: State, i: nat, x: nat)
    requires Stored(s) && i < |s.acts| && s.acts[i].ConRun?
    ensures NodeKept(s, Advance(s, i), i, x)
  {
    var f := s.acts[i];
    assert FrameOk(f);
    if f.k < |f.orig| { TurnMovesNode(s, i, x); } else { assert f.orig[f.k..] == []; }
  }

  lemma OthersMoveNoNode(s: State, i: nat, x: nat)
    requires i < |s.acts|
    requires var f := s.acts[i];
             f.EnqCheck? || f.EnqCount? || f.EnqNotify? || f.EnqDone? || f.ConStart? || f.ConGuard? || f.ConLeave?
             || f.ConDone? || f.AskList? || f.AskCount? || f.AskDone?
    ensures NodeKept(s, Advance(s, i), i, x)
  {
    var t := Advance(s, i);
    assert t.queue == s.queue && t.free == s.free && t.created == s.created;
    assert FrameUses(t.acts[i], x) == 0;
  }

  /** A step moves a node between the shared lists and the activity, or creates the next one. */
  lemma StepMovesNode(s: State, i: nat, x: nat)
    requires Stored(s) && i < |s.acts|
    ensures NodeKept(s, Advance(s, i), i, x)
  {
    var f := s.acts[i];
    if f.EnqStart? || f.EnqSet? { StartMovesNode(s, i, x); }
    else if f.EnqTake? { TakeMovesNode(s, i, x); }
    else if f.EnqSplice? { SpliceMovesNode(s, i, x); }
    else if f.ConLock? { LockMovesNode(s, i, x); }
    else if f.ConRun? { RunMovesNode(s, i, x); }
    else if f.ConReturn? { ReturnMovesNode(s, i, x); }
    else if f.ConFree? { FreeMovesNode(s, i, x); }
    else { OthersMoveNoNode(s, i, x); }
  }

  /** Pending, free and in-flight lists together hold each node ever created exactly once. */
  ghost predicate NodesKept(s: State)
  {
    forall x: nat :: Uses(s.queue, x) + Uses(s.free, x) + Total(f => FrameUses(f, x), s.acts) == One(x < s.created)
  }

  lemma NodesKeptAdvance(s: State, i: nat, x: nat)
    requires Stored(s) && i < |s.acts|
    requires Uses(s.queue, x) + Uses(s.free, x) + Total(f => FrameUses(f, x), s.acts) == One(x < s.created)
    ensures var t := Advance(s, i);
            Uses(t.queue, x) + Uses(t.free, x) + Total(f => FrameUses(f, x), t.acts) == One(x < t.created)
  {
    StepMovesNode(s, i, x);
    AdvanceChangesOne(s, i);
    TotalPut((f: Frame) => FrameUses(f, x), s.acts, i, Advance(s, i).acts[i]);
  }

  lemma NodesKeptSpawn(s: State, g: Frame, x: nat)
    requires Uses(s.queue, x) + Uses(s.free, x) + Total(f => FrameUses(f, x), s.acts) == One(x < s.created)
    ensures var t := Next(s, Spawn(g));
            Uses(t.queue, x) + Uses(t.free, x) + Total(f => FrameUses(f, x), t.acts) == One(x < t.created)
  {
    TotalSpawn((f: Frame) => FrameUses(f, x), s.acts, g);
  }

  lemma NodesKeptStep(s: State, a: Action, x: nat)
    requires Stored(s)
    requires Uses(s.queue, x) + Uses(s.free, x) + Total(f => FrameUses(f, x), s.acts) == One(x < s.created)
    ensures var t := Next(s, a);
            Uses(t.queue, x) + Uses(t.free, x) + Total(f => FrameUses(f, x), t.acts) == One(x < t.created)
  {
    match a {
      case Run(i) => if i < |s.acts| { NodesKeptAdvance(s, i, x); }
      case Spawn(g) => NodesKeptSpawn(s, g, x);
      case Wait =>
        var t := WaitStep(s);
        assert t.queue == s.queue && t.free == s.free && t.acts == s.acts && t.fates == s.fates;
    }
  }

  lemma {:induction false} NodesAreConserved(actions: seq<Action>)
    ensures NodesKept(Exec(actions))
  {
    if actions != [] {
      var before := actions[..|actions| - 1];
      NodesAreConserved(before);
      StorageIsSound(before);
      forall x: nat
        ensures var t := Exec(actions);
                Uses(t.queue, x) + Uses(t.free, x) + Total(f => FrameUses(f, x), t.acts) == One(x < t.created)
      {
        NodesKeptStep(Exec(before), actions[|actions| - 1], x);
      }
    }
  }

  // ---------------------------------------------------------------- every event is settled at most once

  /** The enqueuing activity of each item's event. */
  function EventIds(items: seq<Item>): seq<int>
  {
    seq(|items|, j requires 0 <= j < |items| => if items[j].event.Some? then items[j].event.value.id else -1)
  }

  function FateIds(fates: seq<Fate>): seq<int> { seq(|fates|, j requires 0 <= j < |fates| => fates[j].id) }

  function Holds(items: seq<Item>, x: nat): nat { multiset(EventIds(items))[x] }

  function Settled(fates: seq<Fate>, x: nat): nat { multiset(FateIds(fates))[x] }

  function Times(s: seq<nat>, x: nat): nat { multiset(s)[x] }

  lemma HoldsSum(a: seq<Item>, b: seq<Item>, x: nat)
    ensures Holds(a + b, x) == Holds(a, x) + Holds(b, x)
  {
    assert EventIds(a + b) == EventIds(a) + EventIds(b);
  }

  lemma HoldsSplit(a: seq<Item>, n: nat, x: nat)
    requires n <= |a|
    ensures Holds(a, x) == Holds(a[..n], x) + Holds(a[n..], x)
  {
    HoldsSum(a[..n], a[n..], x);
    assert a == a[..n] + a[n..];
  }

  function HasId(y: Item, x: nat): bool { y.event.Some? && y.event.value.id == x }

  lemma HoldsOne(y: Item, x: nat)
    ensures Holds([y], x) == One(HasId(y, x))
  {
    assert EventIds([y]) == [if y.event.Some? then y.event.value.id else -1];
  }

  lemma HoldsFirst(a: seq<Item>, k: nat, x: nat)
    requires k < |a|
    ensures Holds(a[k..], x) == One(HasId(a[k], x)) + Holds(a[k + 1..], x)
  {
    HoldsSum([a[k]], a[k + 1..], x);
    HoldsOne(a[k], x);
    assert a[k..] == [a[k]] + a[k + 1..];
  }

  lemma HoldsLast(a: seq<Item>, y: Item, x: nat)
    ensures Holds(a + [y], x) == Holds(a, x) + One(HasId(y, x))
  {
    HoldsSum(a, [y], x);
    HoldsOne(y, x);
  }

  lemma SettledLast(a: seq<Fate>, y: Fate, x: nat)
    ensures Settled(a + [y], x) == Settled(a, x) + One(y.id == x)
  {
    assert FateIds(a + [y]) == FateIds(a) + [y.id];
  }

  /** Events in flight in an activity: taken from the queue and not yet settled. */
  function FrameHolds(f: Frame, x: nat): nat
  {
    match f
    case ConRun(_, orig, k, kept, idle, busy, _) =>
      var k' := if busy then k + 1 else k;
      Holds(orig[if k' <= |orig| then k' else 0..], x) + Holds(kept, x)
    case ConReturn(_, _, kept, _, _) => Holds(kept, x)
    case _ => 0
  }

  /** Event x is where it was, or has just been appended. */
  ghost predicate EventKept(s: State, t: State, i: nat, x: nat)
    requires i < |s.acts| && |t.acts| == |s.acts|
  {
    Settled(t.fates, x) + Holds(t.queue, x) + FrameHolds(t.acts[i], x) + Times(s.spliced, x) ==
    Settled(s.fates, x) + Holds(s.queue, x) + FrameHolds(s.acts[i], x) + Times(t.spliced, x)
  }

  lemma SpliceMovesEvent(s: State, i: nat, x: nat)
    requires i < |s.acts| && s.acts[i].EnqSplice? && (forall y :: HasId(s.acts[i].item, y) <==> y == i)
    ensures EventKept(s, Advance(s, i), i, x)
  {
    HoldsLast(s.queue, s.acts[i].item, x);
  }

  lemma LockMovesEvent(s: State, i: nat, x: nat)
    requires i < |s.acts| && s.acts[i].ConLock?
    ensures EventKept(s, Advance(s, i), i, x)
  {
    var t, n := Advance(s, i), Grab(s.acts[i].kind, s.queue);
    assert t.fates == s.fates && t.spliced == s.spliced;
    if t != s && n > 0 {
      HoldsSplit(s.queue, n, x);
      assert t.queue == s.queue[n..] && t.acts[i] == ConRun(s.acts[i].kind, s.queue[..n], 0, [], [], false, []);
      assert s.queue[..n][0..] == s.queue[..n];
      assert Holds([], x) == 0;
    }
  }

  /** The four outcomes of a turn, as far as events are concerned. */
  lemma TurnOutcome(s: State, i: nat)
    requires Stored(s) && i < |s.acts| && s.acts[i].ConRun? && s.acts[i].k < |s.acts[i].orig|
    ensures var t, f := Turn(s, i), s.acts[i];
            var item := f.orig[f.k];
            && FrameOk(f) && item.event.Some?
            && |t.acts| == |s.acts| && t.acts[i].ConRun? && t.queue == s.queue && t.spliced == s.spliced
            && t.acts[i].orig == f.orig
            && (if f.busy then
                  t.fates == s.fates && t.acts[i].k == f.k + 1 && !t.acts[i].busy && t.acts[i].kept == f.kept
                else if Rejects(f.kind, item.event.value) then
                  t.fates == s.fates && t.acts[i].k == f.k + 1 && !t.acts[i].busy && t.acts[i].kept == f.kept + [item]
                else
                  && |t.fates| == |s.fates| + 1 && t.fates == s.fates + [t.fates[|s.fates|]]
                  && t.fates[|s.fates|].id == item.event.value.id && t.acts[i].kept == f.kept
                  && t.acts[i].k == (if f.kind.Clear? then f.k + 1 else f.k) && t.acts[i].busy == !f.kind.Clear?)
  {
    assert FrameOk(s.acts[i]);
  }

  lemma TurnMovesEvent(s: State, i: nat, x: nat)
    requires Stored(s) && i < |s.acts| && s.acts[i].ConRun? && s.acts[i].k < |s.acts[i].orig|
    ensures |Turn(s, i).acts| == |s.acts| && EventKept(s, Turn(s, i), i, x)
  {
    var t, f := Turn(s, i), s.acts[i];
    TurnOutcome(s, i);
    HoldsFirst(f.orig, f.k, x);
    if f.busy {
    } else if Rejects(f.kind, f.orig[f.k].event.value) {
      HoldsLast(f.kept, f.orig[f.k], x);
    } else {
      SettledLast(s.fates, t.fates[|s.fates|], x);
    }
  }

  lemma RunMovesEvent(s: State, i: nat, x: nat)
    requires Stored(s) && i < |s.acts| && s.acts[i].ConRun?
    ensures EventKept(s, Advance(s, i), i, x)
  {
    var f := s.acts[i];
    assert FrameOk(f);
    if f.k < |f.orig| { TurnMovesEvent(s, i, x); } else { assert f.orig[f.k..] == []; }
  }

  lemma ReturnMovesEvent(s: State, i: nat, x: nat)
    requires i < |s.acts| && s.acts[i].ConReturn?
    ensures EventKept(s, Advance(s, i), i, x)
  {
    var t, f := Advance(s, i), s.acts[i];
    HoldsSum(f.kept, s.queue, x);
    assert t.fates == s.fates && t.spliced == s.spliced;
    if t != s {
      assert t.acts[i] == ConFree(f.kind, f.idle);
      assert f.kept == [] ==> Holds(f.kept, x) == 0;
      assert t.queue == if f.kept == [] then s.queue else f.kept + s.queue;
    }
  }

  /** A step of an enqueue call. */
  predicate Producing(f: Frame)
  {
    f.EnqStart? || f.EnqTake? || f.EnqSet? || f.EnqSplice? || f.EnqCheck? || f.EnqCount? || f.EnqNotify? || f.EnqDone?
  }

  lemma ProducerMovesNoEvent(s: State, i: nat, x: nat)
    requires i < |s.acts| && Producing(s.acts[i]) && !s.acts[i].EnqSplice?
    ensures EventKept(s, Advance(s, i), i, x)
  {
    var t := Advance(s, i);
    assert t.fates == s.fates && t.spliced == s.spliced && t.queue == s.queue;
    assert FrameHolds(t.acts[i], x) == 0;
  }

  lemma OthersMoveNoEvent(s: State, i: nat, x: nat)
    requires i < |s.acts| && !Producing(s.acts[i])
    requires var f := s.acts[i]; !f.ConLock? && !f.ConRun? && !f.ConReturn?
    ensures EventKept(s, Advance(s, i), i, x)
  {
    var t := Advance(s, i);
    assert t.fates == s.fates && t.spliced == s.spliced && t.queue == s.queue;
    assert FrameHolds(t.acts[i], x) == 0;
  }

  lemma StepMovesEvent(s: State, i: nat, x: nat)
    requires Stored(s) && Labelled(s) && i < |s.acts|
    ensures EventKept(s, Advance(s, i), i, x)
  {
    var f := s.acts[i];
    if f.EnqSplice? { assert Label(f, i); SpliceMovesEvent(s, i, x); }
    else if f.ConLock? { LockMovesEvent(s, i, x); }
    else if f.ConRun? { RunMovesEvent(s, i, x); }
    else if f.ConReturn? { ReturnMovesEvent(s, i, x); }
    else if Producing(f) { ProducerMovesNoEvent(s, i, x); }
    else { OthersMoveNoEvent(s, i, x); }
  }

  /** An activity enqueues its own event. */
  predicate Label(f: Frame, i: nat) { f.EnqSplice? ==> f.item.event.Some? && f.item.event.value.id == i }

  predicate Appended(f: Frame) { f.EnqCheck? || f.EnqCount? || f.EnqNotify? || f.EnqDone? }

  /** Each activity appends at most once, and then exactly its own event. */
  ghost predicate Labelled(s: State)
  {
    && (forall i :: 0 <= i < |s.acts| ==> Label(s.acts[i], i))
    && (forall x: nat :: Times(s.spliced, x) == One(x < |s.acts| && Appended(s.acts[x])))
  }

  lemma LabelledStep(s: State, a: Action)
    requires Labelled(s)
    ensures Labelled(Next(s, a))
  {
    var t := Next(s, a);
    if a.Run? && a.i < |s.acts| {
      AdvanceChangesOne(s, a.i);
      LabelKept(s, a.i);
      LabelledAdvance(s, a.i);
    }
  }

  lemma LabelKept(s: State, i: nat)
    requires Labelled(s) && i < |s.acts|
    ensures Label(Advance(s, i).acts[i], i)
  {
    assert Label(s.acts[i], i);
  }

  lemma SpliceLabels(s: State, i: nat)
    requires i < |s.acts| && s.acts[i].EnqSplice?
    ensures var t := Advance(s, i);
            if t.spliced == s.spliced then !Appended(t.acts[i]) else t.spliced == s.spliced + [i] && Appended(t.acts[i])
  {
  }

  lemma ProducerAppendsNothing(s: State, i: nat)
    requires i < |s.acts| && Producing(s.acts[i]) && !s.acts[i].EnqSplice?
    ensures Advance(s, i).spliced == s.spliced && Appended(Advance(s, i).acts[i]) == Appended(s.acts[i])
  {
  }

  lemma ConsumerAppendsNothing(s: State, i: nat)
    requires i < |s.acts| && !Producing(s.acts[i])
    ensures Advance(s, i).spliced == s.spliced && !Appended(Advance(s, i).acts[i])
  {
  }

  lemma LabelledAdvance(s: State, i: nat)
    requires Labelled(s) && i < |s.acts|
    ensures var t := Advance(s, i);
            if t.spliced == s.spliced then Appended(t.acts[i]) == Appended(s.acts[i])
            else t.spliced == s.spliced + [i] && Appended(t.acts[i]) && !Appended(s.acts[i])
  {
    if s.acts[i].EnqSplice? { SpliceLabels(s, i); }
    else if Producing(s.acts[i]) { ProducerAppendsNothing(s, i); }
    else { ConsumerAppendsNothing(s, i); }
  }

  /** Every event appended so far is settled once, or still pending, or still in flight: exactly one of these. */
  ghost predicate EventsKept(s: State)
  {
    && Labelled(s)
    && (forall x: nat ::
          Settled(s.fates, x) + Holds(s.queue, x) + Total(f => FrameHolds(f, x), s.acts) == Times(s.spliced, x))
  }

  lemma EventsKeptAdvance(s: State, i: nat, x: nat)
    requires Stored(s) && Labelled(s) && i < |s.acts|
    requires Settled(s.fates, x) + Holds(s.queue, x) + Total(f => FrameHolds(f, x), s.acts) == Times(s.spliced, x)
    ensures var t := Advance(s, i);
            Settled(t.fates, x) + Holds(t.queue, x) + Total(f => FrameHolds(f, x), t.acts) == Times(t.spliced, x)
  {
    StepMovesEvent(s, i, x);
    AdvanceChangesOne(s, i);
    TotalPut((f: Frame) => FrameHolds(f, x), s.acts, i, Advance(s, i).acts[i]);
  }

  lemma EventsKeptSpawn(s: State, g: Frame, x: nat)
    requires Settled(s.fates, x) + Holds(s.queue, x) + Total(f => FrameHolds(f, x), s.acts) == Times(s.spliced, x)
    ensures var t := Next(s, Spawn(g));
            Settled(t.fates, x) + Holds(t.queue, x) + Total(f => FrameHolds(f, x), t.acts) == Times(t.spliced, x)
  {
    TotalSpawn((f: Frame) => FrameHolds(f, x), s.acts, g);
  }

  lemma EventsKeptStep(s: State, a: Action, x: nat)
    requires Stored(s) && Labelled(s)
    requires Settled(s.fates, x) + Holds(s.queue, x) + Total(f => FrameHolds(f, x), s.acts) == Times(s.spliced, x)
    ensures var t := Next(s, a);
            Settled(t.fates, x) + Holds(t.queue, x) + Total(f => FrameHolds(f, x), t.acts) == Times(t.spliced, x)
  {
    match a {
      case Run(i) => if i < |s.acts| { EventsKeptAdvance(s, i, x); }
      case Spawn(g) => EventsKeptSpawn(s, g, x);
      case Wait =>
        var t := WaitStep(s);
        assert t.queue == s.queue && t.free == s.free && t.acts == s.acts && t.fates == s.fates;
    }
  }

  lemma {:induction false} EventsAreConserved(actions: seq<Action>)
    ensures EventsKept(Exec(actions))
  {
    if actions != [] {
      var before, a := actions[..|actions| - 1], actions[|actions| - 1];
      EventsAreConserved(before);
      StorageIsSound(before);
      LabelledStep(Exec(before), a);
      forall x: nat
        ensures var t := Exec(actions);
                Settled(t.fates, x) + Holds(t.queue, x) + Total(f => FrameHolds(f, x), t.acts) == Times(t.spliced, x)
      {
        EventsKeptStep(Exec(before), a, x);
      }
    }
  }

  /** No event is dispatched, taken or cleared twice, over any run. */
  lemma SettledAtMostOnce(actions: seq<Action>, x: nat)
    ensures Settled(Exec(actions).fates, x) <= 1
  {
    EventsAreConserved(actions);
    var s := Exec(actions);
    assert Times(s.spliced, x) <= 1;
  }
}
