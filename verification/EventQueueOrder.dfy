/** In which order EventQueue settles events, over all runs of its machine. */
module EventQueueOrder {
  import opened EventQueue

  // ---------------------------------------------------------------- processIf splits what it took

  /** processIf settles the events that its predicate accepts, every other call those it takes. */
  predicate Wants(kind: Kind, e: Event)
  {
    match kind
    case ProcessIf(accept) => e.payload in accept
    case _ => true
  }

  /** The items, in order, whose events the call does not want. */
  function Rejected(kind: Kind, items: seq<Item>): seq<Item>
  {
    if items == [] then []
    else
      var x := items[|items| - 1];
      Rejected(kind, items[..|items| - 1]) +
      if x.event.Some? && !Wants(kind, x.event.value) then [x] else []
  }

  /** The events, in order, that the call settles. */
  function Accepted(kind: Kind, items: seq<Item>): seq<nat>
  {
    if items == [] then []
    else
      var x := items[|items| - 1];
      Accepted(kind, items[..|items| - 1]) +
      if x.event.Some? && Wants(kind, x.event.value) then [x.event.value.id] else []
  }

  // ---------------------------------------------------------------- subsequences

  /** s is t with some elements left out. */
  predicate Within<T(==)>(s: seq<T>, t: seq<T>)
  {
    if s == [] then true
    else if t == [] then false
    else
      var m, n := |s| - 1, |t| - 1;
      (s[m] == t[n] && Within(s[..m], t[..n])) || Within(s, t[..n])
  }

  lemma WithinLonger<T>(s: seq<T>, t: seq<T>, x: T)
    requires Within(s, t)
    ensures Within(s, t + [x]) && Within(s + [x], t + [x])
  {
    assert (t + [x])[..|t|] == t && (s + [x])[..|s|] == s;
  }

  lemma {:induction false} WithinDrop<T>(a: seq<T>, x: T, b: seq<T>, t: seq<T>)
    requires Within(a + [x] + b, t)
    ensures Within(a + b, t)
    decreases |t|
  {
    var s, n := a + [x] + b, |t| - 1;
    assert t == t[..n] + [t[n]];
    if Within(s, t[..n]) {
      WithinDrop(a, x, b, t[..n]);
      WithinLonger(a + b, t[..n], t[n]);
    } else if b == [] {
      assert s[..|a|] == a && a + b == a;
      WithinLonger(a, t[..n], t[n]);
    } else {
      var m := |b| - 1;
      assert s[..|s| - 1] == a + [x] + b[..m];
      WithinDrop(a, x, b[..m], t[..n]);
      WithinLonger(a + b[..m], t[..n], t[n]);
      assert a + b == a + b[..m] + [t[n]];
    }
  }

  /** What a call of that kind puts on record. */
  function AsFates(kind: Kind, ids: seq<nat>): seq<Fate>
  {
    seq(|ids|, j requires 0 <= j < |ids| =>
      Fate(ids[j], if kind.Clear? then Cleared else if kind.Take? then Taken else Dispatched))
  }

  /** The events a consuming call has settled are on record in the same order. */
  predicate OnRecord(f: Frame, fates: seq<Fate>)
  {
    f.ConRun? || f.ConReturn? ==> Within(AsFates(f.kind, f.sent), fates)
  }

  /** A turn settles nothing, or one event, which it logs. */
  lemma TurnRecords(s: State, i: nat)
    requires i < |s.acts| && s.acts[i].ConRun? && s.acts[i].k < |s.acts[i].orig|
    ensures var t, f := Turn(s, i), s.acts[i];
            && t.acts[i].ConRun? && t.acts[i].kind == f.kind
            && ((t.fates == s.fates && t.acts[i].sent == f.sent)
                || (f.orig[f.k].event.Some?
                    && t.fates == s.fates + AsFates(f.kind, [f.orig[f.k].event.value.id])
                    && t.acts[i].sent == f.sent + [f.orig[f.k].event.value.id]))
  {
  }

  lemma RecordedOneMore(kind: Kind, ids: seq<nat>, id: nat, fates: seq<Fate>)
    requires Within(AsFates(kind, ids), fates)
    ensures Within(AsFates(kind, ids + [id]), fates + AsFates(kind, [id]))
  {
    var x := AsFates(kind, [id])[0];
    assert AsFates(kind, ids + [id]) == AsFates(kind, ids) + [x] && AsFates(kind, [id]) == [x];
    WithinLonger(AsFates(kind, ids), fates, x);
  }

  lemma OnRecordTurn(s: State, i: nat)
    requires i < |s.acts| && s.acts[i].ConRun? && s.acts[i].k < |s.acts[i].orig| && OnRecord(s.acts[i], s.fates)
    ensures OnRecord(Turn(s, i).acts[i], Turn(s, i).fates)
  {
    var f := s.acts[i];
    TurnRecords(s, i);
    if f.orig[f.k].event.Some? { RecordedOneMore(f.kind, f.sent, f.orig[f.k].event.value.id, s.fates); }
  }

  lemma OnRecordAdvance(s: State, i: nat)
    requires i < |s.acts| && OnRecord(s.acts[i], s.fates)
    ensures OnRecord(Advance(s, i).acts[i], Advance(s, i).fates)
  {
    var f := s.acts[i];
    if f.ConRun? && f.k < |f.orig| {
      OnRecordTurn(s, i);
    } else {
      QuietStep(s, i);
    }
  }

  lemma QuietProducer(s: State, i: nat)
    requires i < |s.acts| && !Consuming(s.acts[i])
    ensures !Advance(s, i).acts[i].ConRun? && !Advance(s, i).acts[i].ConReturn?
  {
  }

  lemma QuietConsumer(s: State, i: nat)
    requires i < |s.acts| && Consuming(s.acts[i]) && !(s.acts[i].ConRun? && s.acts[i].k < |s.acts[i].orig|)
    ensures var g, f := Advance(s, i).acts[i], s.acts[i];
            g.ConRun? || g.ConReturn? ==>
              g.sent == [] || ((f.ConRun? || f.ConReturn?) && g.sent == f.sent && g.kind == f.kind)
  {
  }

  /** A step that is not a turn of a loop settles nothing. */
  lemma QuietStep(s: State, i: nat)
    requires i < |s.acts| && !(s.acts[i].ConRun? && s.acts[i].k < |s.acts[i].orig|)
    requires OnRecord(s.acts[i], s.fates)
    ensures OnRecord(Advance(s, i).acts[i], Advance(s, i).fates)
  {
    RecordGrows(s, i);
    if Consuming(s.acts[i]) { QuietConsumer(s, i); } else { QuietProducer(s, i); }
  }

  lemma OnRecordOther(s: State, j: nat, i: nat)
    requires i < |s.acts| && j < |s.acts| && i != j && OnRecord(s.acts[i], s.fates)
    ensures Advance(s, j).acts[i] == s.acts[i] && OnRecord(s.acts[i], Advance(s, j).fates)
  {
    var t, f := Advance(s, j), s.acts[i];
    AdvanceChangesOne(s, j);
    RecordGrows(s, j);
    if t.fates != s.fates && (f.ConRun? || f.ConReturn?) {
      WithinLonger(AsFates(f.kind, f.sent), s.fates, t.fates[|s.fates|]);
    }
  }

  lemma OnRecordStep(s: State, a: Action, i: nat)
    requires i < |s.acts| ==> OnRecord(s.acts[i], s.fates)
    requires i < |Next(s, a).acts|
    ensures OnRecord(Next(s, a).acts[i], Next(s, a).fates)
  {
    if a.Run? && a.i < |s.acts| {
      AdvanceChangesOne(s, a.i);
      if a.i == i { OnRecordAdvance(s, i); } else { OnRecordOther(s, a.i, i); }
    }
  }

  lemma RecordGrows(s: State, i: nat)
    requires i < |s.acts|
    ensures var t := Advance(s, i);
            t.fates == s.fates || (|t.fates| == |s.fates| + 1 && t.fates == s.fates + [t.fates[|s.fates|]])
    ensures Advance(s, i).fates != s.fates ==> s.acts[i].ConRun? && s.acts[i].k < |s.acts[i].orig|
  {
  }

  lemma {:induction false} AlwaysOnRecord(actions: seq<Action>, i: nat)
    requires i < |Exec(actions).acts|
    ensures OnRecord(Exec(actions).acts[i], Exec(actions).fates)
  {
    if actions != [] {
      var before, a := actions[..|actions| - 1], actions[|actions| - 1];
      if i < |Exec(before).acts| { AlwaysOnRecord(before, i); }
      OnRecordStep(Exec(before), a, i);
    }
  }

  // ---------------------------------------------------------------- processIf

  /** What a consuming call has kept and settled of the items it took. */
  predicate Divided(f: Frame)
  {
    match f
    case ConRun(kind, orig, k, kept, _, busy, sent) =>
      && k <= |orig| && (busy ==> k < |orig| && !(orig[k].event.Some? && Rejects(kind, orig[k].event.value)))
      && kept == Rejected(kind, orig[..k])
      && sent == Accepted(kind, orig[..if busy then k + 1 else k])
    case ConReturn(kind, orig, kept, _, sent) => kept == Rejected(kind, orig) && sent == Accepted(kind, orig)
    case _ => true
  }

  lemma DividedTurn(s: State, i: nat)
    requires Stored(s) && i < |s.acts| && s.acts[i].ConRun? && s.acts[i].k < |s.acts[i].orig| && Divided(s.acts[i])
    ensures |Turn(s, i).acts| == |s.acts| && Divided(Turn(s, i).acts[i])
  {
    var f := s.acts[i];
    assert FrameOk(f);
    assert f.orig[..f.k + 1][..f.k] == f.orig[..f.k];
  }

  lemma DividedAdvance(s: State, i: nat)
    requires Stored(s) && i < |s.acts| && Divided(s.acts[i])
    ensures Divided(Advance(s, i).acts[i])
  {
    var f := s.acts[i];
    assert FrameOk(f);
    if f.ConRun? {
      if f.k < |f.orig| { DividedTurn(s, i); } else { assert f.orig[..f.k] == f.orig; }
    }
  }

  lemma {:induction false} AlwaysDivided(actions: seq<Action>)
    ensures forall i :: 0 <= i < |Exec(actions).acts| ==> Divided(Exec(actions).acts[i])
  {
    if actions != [] {
      var before, a := actions[..|actions| - 1], actions[|actions| - 1];
      AlwaysDivided(before);
      StorageIsSound(before);
      var s := Exec(before);
      if a.Run? && a.i < |s.acts| {
        DividedAdvance(s, a.i);
        AdvanceChangesOne(s, a.i);
      }
    }
  }

  /**
    When processIf has gone through what it took, it has dispatched exactly the events its
    predicate accepts, in order, as the record of all events shows, and gives the others back,
    in order, ahead of everything that was enqueued meanwhile.
   */
  lemma ProcessIfSplits(actions: seq<Action>, i: nat)
    requires i < |Exec(actions).acts| && Exec(actions).acts[i].ConReturn? && Unlocked(Exec(actions))
    ensures var s := Exec(actions);
            var f := s.acts[i];
            && f.sent == Accepted(f.kind, f.orig) && Within(AsFates(f.kind, f.sent), s.fates)
            && Advance(s, i).queue == Rejected(f.kind, f.orig) + s.queue
  {
    AlwaysDivided(actions);
    AlwaysOnRecord(actions, i);
    var s := Exec(actions);
    assert Divided(s.acts[i]);
    assert [] + s.queue == s.queue;
  }

  // ---------------------------------------------------------------- first in, first out

  /** The events an activity has taken and not settled, in queue order. */
  function Carries(f: Frame): seq<int>
  {
    if f.ConRun? && (if f.busy then f.k + 1 else f.k) <= |f.orig|
    then EventIds(f.orig[if f.busy then f.k + 1 else f.k..])
    else []
  }

  function Gather<T>(w: T -> seq<int>, xs: seq<T>, n: nat): seq<int>
    requires n <= |xs|
  {
    if n == 0 then [] else Gather(w, xs, n - 1) + w(xs[n - 1])
  }

  function Carried(acts: seq<Frame>): seq<int> { Gather(Carries, acts, |acts|) }

  predicate Consuming(f: Frame) { f.ConGuard? || f.ConLock? || f.ConRun? || f.ConReturn? || f.ConFree? || f.ConLeave? }

  predicate Selective(f: Frame) { (f.ConStart? || Consuming(f)) && f.kind.ProcessIf? }

  /** One consuming call at a time. */
  ghost predicate OneConsumer(s: State)
  {
    forall i, j :: 0 <= i < j < |s.acts| ==> !(Consuming(s.acts[i]) && Consuming(s.acts[j]))
  }

  ghost predicate OneConsumerRun(actions: seq<Action>)
  {
    OneConsumer(Exec(actions)) && (actions != [] ==> OneConsumerRun(actions[..|actions| - 1]))
  }

  /** One consuming call at a time, and none that leaves events behind. */
  ghost predicate Solo(s: State)
  {
    OneConsumer(s) && forall i :: 0 <= i < |s.acts| ==> !Selective(s.acts[i])
  }

  ghost predicate SoloRun(actions: seq<Action>)
  {
    Solo(Exec(actions)) && (actions != [] ==> SoloRun(actions[..|actions| - 1]))
  }

  lemma {:induction false} GatherNone<T>(w: T -> seq<int>, xs: seq<T>, n: nat)
    requires n <= |xs| && forall j :: 0 <= j < n ==> w(xs[j]) == []
    ensures Gather(w, xs, n) == []
  {
    if n > 0 { GatherNone(w, xs, n - 1); }
  }

  lemma {:induction false} GatherOne<T>(w: T -> seq<int>, xs: seq<T>, n: nat, i: nat)
    requires i < n <= |xs| && forall j :: 0 <= j < n && j != i ==> w(xs[j]) == []
    ensures Gather(w, xs, n) == w(xs[i])
  {
    if i == n - 1 { GatherNone(w, xs, n - 1); } else { GatherOne(w, xs, n - 1, i); }
  }

  lemma {:induction false} GatherSame<T>(w: T -> seq<int>, xs: seq<T>, ys: seq<T>, n: nat)
    requires n <= |xs| && n <= |ys| && forall j :: 0 <= j < n ==> w(ys[j]) == w(xs[j])
    ensures Gather(w, ys, n) == Gather(w, xs, n)
  {
    if n > 0 { GatherSame(w, xs, ys, n - 1); }
  }

  /** Settled, then in flight, then pending: together the events in the order in which they were appended. */
  ghost predicate InOrder(s: State)
  {
    s.spliced == FateIds(s.fates) + Carried(s.acts) + EventIds(s.queue)
  }

  lemma IdsSum(a: seq<Item>, b: seq<Item>)
    ensures EventIds(a + b) == EventIds(a) + EventIds(b)
  {
  }

  lemma LockInOrder(s: State, i: nat)
    requires i < |s.acts| && s.acts[i].ConLock?
    ensures var t := Advance(s, i);
            t.fates == s.fates && t.spliced == s.spliced
            && Carries(t.acts[i]) + EventIds(t.queue) == Carries(s.acts[i]) + EventIds(s.queue)
  {
    var t, n := Advance(s, i), Grab(s.acts[i].kind, s.queue);
    if t != s && n > 0 {
      IdsSum(s.queue[..n], s.queue[n..]);
      assert s.queue == s.queue[..n] + s.queue[n..];
      assert t.acts[i].orig[0..] == s.queue[..n];
    }
  }

  lemma TurnInOrder(s: State, i: nat)
    requires Stored(s) && i < |s.acts| && s.acts[i].ConRun? && s.acts[i].k < |s.acts[i].orig| && !Selective(s.acts[i])
    ensures var t := Turn(s, i);
            |t.acts| == |s.acts| && t.queue == s.queue && t.spliced == s.spliced
            && FateIds(t.fates) + Carries(t.acts[i]) == FateIds(s.fates) + Carries(s.acts[i])
  {
    var t, f := Turn(s, i), s.acts[i];
    TurnOutcome(s, i);
    if !f.busy {
      var id := f.orig[f.k].event.value.id;
      assert FateIds(t.fates) == FateIds(s.fates) + [id];
      assert EventIds(f.orig[f.k..]) == [id] + EventIds(f.orig[f.k + 1..]);
    }
  }

  /** A step of the only consumer moves events from the queue to its hands, or from its hands to the record. */
  lemma ConsumerInOrder(s: State, i: nat)
    requires Stored(s) && i < |s.acts| && Consuming(s.acts[i]) && !Selective(s.acts[i])
    ensures var t := Advance(s, i);
            t.spliced == s.spliced &&
            FateIds(t.fates) + Carries(t.acts[i]) + EventIds(t.queue) ==
            FateIds(s.fates) + Carries(s.acts[i]) + EventIds(s.queue)
  {
    var t, f := Advance(s, i), s.acts[i];
    assert FrameOk(f);
    if f.ConLock? {
      LockInOrder(s, i);
      assert FateIds(t.fates) + Carries(t.acts[i]) + EventIds(t.queue) ==
             FateIds(s.fates) + (Carries(t.acts[i]) + EventIds(t.queue));
      assert FateIds(s.fates) + Carries(f) + EventIds(s.queue) == FateIds(s.fates) + (Carries(f) + EventIds(s.queue));
    } else if f.ConRun? && f.k < |f.orig| {
      TurnInOrder(s, i);
    } else {
      assert Carries(f) == [] && Carries(t.acts[i]) == [] && t.queue == s.queue && t.fates == s.fates;
    }
  }

  lemma SoloCarriesAlone(s: State, i: nat)
    requires Solo(s) && i < |s.acts| && Consuming(s.acts[i])
    ensures forall j :: 0 <= j < |s.acts| && j != i ==> Carries(s.acts[j]) == []
  {
    forall j | 0 <= j < |s.acts| && j != i ensures Carries(s.acts[j]) == [] {
      assert !Consuming(s.acts[j]);
    }
  }

  lemma ProducerInOrder(s: State, i: nat)
    requires Stored(s) && i < |s.acts| && !Consuming(s.acts[i]) && Label(s.acts[i], i)
    ensures var t := Advance(s, i);
            && Carries(t.acts[i]) == Carries(s.acts[i]) && t.fates == s.fates
            && ((t.spliced == s.spliced && t.queue == s.queue)
                || (t.spliced == s.spliced + [i] && EventIds(t.queue) == EventIds(s.queue) + [i]))
  {
    if s.acts[i].EnqSplice? { IdsSum(s.queue, [s.acts[i].item]); }
  }

  lemma ConsumerKeepsOrder(s: State, i: nat)
    requires Stored(s) && Solo(s) && InOrder(s) && i < |s.acts| && Consuming(s.acts[i])
    ensures InOrder(Advance(s, i))
  {
    var t := Advance(s, i);
    AdvanceChangesOne(s, i);
    SoloCarriesAlone(s, i);
    GatherOne(Carries, s.acts, |s.acts|, i);
    GatherOne(Carries, t.acts, |t.acts|, i);
    ConsumerInOrder(s, i);
  }

  lemma OneMoreAtTheEnd(a: seq<int>, b: seq<int>, x: int)
    ensures a + b + [x] == a + (b + [x])
  {
  }

  lemma ProducerKeepsOrder(s: State, i: nat)
    requires Stored(s) && Labelled(s) && InOrder(s) && i < |s.acts| && !Consuming(s.acts[i])
    ensures InOrder(Advance(s, i))
  {
    var t := Advance(s, i);
    AdvanceChangesOne(s, i);
    assert Label(s.acts[i], i);
    ProducerInOrder(s, i);
    GatherSame(Carries, s.acts, t.acts, |s.acts|);
    OneMoreAtTheEnd(FateIds(s.fates) + Carried(s.acts), EventIds(s.queue), i);
  }

  lemma InOrderAdvance(s: State, i: nat)
    requires Stored(s) && Labelled(s) && Solo(s) && InOrder(s) && i < |s.acts|
    ensures InOrder(Advance(s, i))
  {
    if Consuming(s.acts[i]) { ConsumerKeepsOrder(s, i); } else { ProducerKeepsOrder(s, i); }
  }

  lemma InOrderSpawn(s: State, f: Frame)
    requires InOrder(s)
    ensures InOrder(Next(s, Spawn(f)))
  {
    GatherSame(Carries, s.acts, s.acts + [f], |s.acts|);
  }

  lemma {:induction false} AlwaysInOrder(actions: seq<Action>)
    requires SoloRun(actions)
    ensures InOrder(Exec(actions))
  {
    if actions != [] {
      var before, a := actions[..|actions| - 1], actions[|actions| - 1];
      AlwaysInOrder(before);
      StorageIsSound(before);
      EventsAreConserved(before);
      var s := Exec(before);
      match a {
        case Run(i) => if i < |s.acts| { InOrderAdvance(s, i); }
        case Spawn(f) => InOrderSpawn(s, f);
        case Wait =>
      }
    }
  }

  /** With one consuming call at a time, events are settled in the order in which they were appended. */
  lemma FirstInFirstOut(actions: seq<Action>)
    requires SoloRun(actions)
    ensures FateIds(Exec(actions).fates) <= Exec(actions).spliced
  {
    AlwaysInOrder(actions);
  }

  // ---------------------------------------------------------------- append order, processIf included

  /** The events an activity may still settle or put back, in queue order. */
  function Held(f: Frame): seq<int>
  {
    if f.ConRun? then EventIds(f.kept) + Carries(f) else if f.ConReturn? then EventIds(f.kept) else []
  }

  /** What is held and then what is pending comes in the order in which it was appended. */
  ghost predicate AppendOrder(s: State)
  {
    Within(Gather(Held, s.acts, |s.acts|) + EventIds(s.queue), s.spliced)
  }

  lemma LockHolds(s: State, i: nat)
    requires i < |s.acts| && s.acts[i].ConLock?
    ensures var t := Advance(s, i);
            t.spliced == s.spliced && Held(t.acts[i]) + EventIds(t.queue) == Held(s.acts[i]) + EventIds(s.queue)
  {
    LockInOrder(s, i);
  }

  lemma ReturnHolds(s: State, i: nat)
    requires i < |s.acts| && s.acts[i].ConReturn?
    ensures var t := Advance(s, i);
            t.spliced == s.spliced && Held(t.acts[i]) + EventIds(t.queue) == Held(s.acts[i]) + EventIds(s.queue)
  {
    IdsSum(s.acts[i].kept, s.queue);
  }

  /** A turn keeps what is held, or settles one event out of the middle of it. */
  lemma TurnHolds(s: State, i: nat) returns (x: int)
    requires Stored(s) && i < |s.acts| && s.acts[i].ConRun? && s.acts[i].k < |s.acts[i].orig|
    ensures var t, f := Turn(s, i), s.acts[i];
            && |t.acts| == |s.acts| && t.queue == s.queue && t.spliced == s.spliced
            && (Held(t.acts[i]) == Held(f)
                || SettledBetween(EventIds(f.kept), x, EventIds(f.orig[f.k + 1..]), Held(f), Held(t.acts[i])))
  {
    x := 0;
    var t, f := Turn(s, i), s.acts[i];
    TurnOutcome(s, i);
    var item, rest := f.orig[f.k], EventIds(f.orig[f.k + 1..]);
    if !f.busy {
      var id := item.event.value.id;
      assert EventIds(f.orig[f.k..]) == [id] + rest;
      if Rejects(f.kind, item.event.value) {
        IdsSum(f.kept, [item]);
        assert EventIds([item]) == [id];
        assert EventIds(f.kept) + [id] + rest == EventIds(f.kept) + ([id] + rest);
      } else {
        assert EventIds(f.kept) + ([id] + rest) == EventIds(f.kept) + [id] + rest;
        x := id;
      }
    }
  }

  predicate SettledBetween(a: seq<int>, x: int, b: seq<int>, before: seq<int>, after: seq<int>)
  {
    before == a + [x] + b && after == a + b
  }

  lemma RunHolds(s: State, i: nat)
    requires Stored(s) && i < |s.acts| && s.acts[i].ConRun?
    requires Within(Held(s.acts[i]) + EventIds(s.queue), s.spliced)
    ensures var t := Advance(s, i); Within(Held(t.acts[i]) + EventIds(t.queue), t.spliced)
  {
    var t, f, q := Advance(s, i), s.acts[i], EventIds(s.queue);
    assert FrameOk(f);
    if f.k < |f.orig| {
      var x := TurnHolds(s, i);
      if Held(t.acts[i]) != Held(f) {
        var a, b := EventIds(f.kept), EventIds(f.orig[f.k + 1..]);
        assert a + [x] + b + q == a + [x] + (b + q) && a + b + q == a + (b + q);
        WithinDrop(a, x, b + q, s.spliced);
      }
    } else {
      assert Carries(f) == [] && EventIds(f.kept) + [] == EventIds(f.kept);
    }
  }

  lemma ConsumerHolds(s: State, i: nat)
    requires Stored(s) && i < |s.acts| && Consuming(s.acts[i])
    requires Within(Held(s.acts[i]) + EventIds(s.queue), s.spliced)
    ensures var t := Advance(s, i); Within(Held(t.acts[i]) + EventIds(t.queue), t.spliced)
  {
    var f := s.acts[i];
    if f.ConLock? { LockHolds(s, i); }
    else if f.ConReturn? { ReturnHolds(s, i); }
    else if f.ConRun? { RunHolds(s, i); }
  }

  /** Nobody but the one consumer holds anything. */
  lemma HeldByOne(s: State, i: nat)
    requires OneConsumer(s) && i < |s.acts| && Consuming(s.acts[i])
    ensures Gather(Held, s.acts, |s.acts|) == Held(s.acts[i])
    ensures var t := Advance(s, i); Gather(Held, t.acts, |t.acts|) == Held(t.acts[i])
  {
    var t := Advance(s, i);
    AdvanceChangesOne(s, i);
    forall j | 0 <= j < |s.acts| && j != i ensures Held(s.acts[j]) == [] && Held(t.acts[j]) == [] {
      assert !Consuming(s.acts[j]);
    }
    GatherOne(Held, s.acts, |s.acts|, i);
    GatherOne(Held, t.acts, |t.acts|, i);
  }

  lemma ConsumerKeepsAppendOrder(s: State, i: nat)
    requires Stored(s) && OneConsumer(s) && AppendOrder(s) && i < |s.acts| && Consuming(s.acts[i])
    ensures AppendOrder(Advance(s, i))
  {
    HeldByOne(s, i);
    ConsumerHolds(s, i);
  }

  lemma ProducerHolds(s: State, i: nat)
    requires Stored(s) && Labelled(s) && i < |s.acts| && !Consuming(s.acts[i])
    ensures var t := Advance(s, i);
            && Gather(Held, t.acts, |t.acts|) == Gather(Held, s.acts, |s.acts|)
            && ((t.spliced == s.spliced && t.queue == s.queue)
                || (t.spliced == s.spliced + [i] && EventIds(t.queue) == EventIds(s.queue) + [i]))
  {
    var t := Advance(s, i);
    AdvanceChangesOne(s, i);
    assert Label(s.acts[i], i);
    ProducerInOrder(s, i);
    QuietProducer(s, i);
    GatherSame(Held, s.acts, t.acts, |s.acts|);
  }

  lemma ProducerKeepsAppendOrder(s: State, i: nat)
    requires Stored(s) && Labelled(s) && AppendOrder(s) && i < |s.acts| && !Consuming(s.acts[i])
    ensures AppendOrder(Advance(s, i))
  {
    ProducerHolds(s, i);
    var held := Gather(Held, s.acts, |s.acts|);
    OneMoreAtTheEnd(held, EventIds(s.queue), i);
    WithinLonger(held + EventIds(s.queue), s.spliced, i);
  }

  lemma SpawnHolds(s: State, f: Frame)
    ensures var t := Next(s, Spawn(f));
            Gather(Held, t.acts, |t.acts|) == Gather(Held, s.acts, |s.acts|)
            && t.queue == s.queue && t.spliced == s.spliced
  {
    var held := Gather(Held, s.acts, |s.acts|);
    GatherSame(Held, s.acts, s.acts + [f], |s.acts|);
    assert held + [] == held;
  }

  lemma AppendOrderStep(s: State, a: Action)
    requires Stored(s) && Labelled(s) && OneConsumer(s) && AppendOrder(s)
    ensures AppendOrder(Next(s, a))
  {
    match a {
      case Run(i) =>
        if i < |s.acts| {
          if Consuming(s.acts[i]) { ConsumerKeepsAppendOrder(s, i); } else { ProducerKeepsAppendOrder(s, i); }
        }
      case Spawn(f) => SpawnHolds(s, f);
      case Wait =>
    }
  }

  /**
    With one consuming call at a time, processIf included, the events kept back, those still to
    be settled and those pending always come in the order in which they were appended.
   */
  lemma {:induction false} AlwaysAppendOrder(actions: seq<Action>)
    requires OneConsumerRun(actions)
    ensures AppendOrder(Exec(actions))
  {
    if actions != [] {
      var before, a := actions[..|actions| - 1], actions[|actions| - 1];
      AlwaysAppendOrder(before);
      StorageIsSound(before);
      EventsAreConserved(before);
      AppendOrderStep(Exec(before), a);
    }
  }
}
