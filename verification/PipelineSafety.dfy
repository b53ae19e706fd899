/** What the pipeline keeps under every interleaving. */
module PipelineSafety {
  import opened Wrappers
  import opened Aggregator
  import opened Pipeline
  import opened Timestamps
  import MessageStore
  import StoreHistory

  // ---------- What a step does to the goroutines ----------

  /** The phases of a handler that has made its call to the aggregator, or needs none. */
  predicate Past(phase: Phase) {
    || phase.Building? || phase.Checking? || phase.Starting? || phase.Launching? || phase.Sending?
    || (phase.Finished? && phase.outcome in {Queued, Delivered, Dropped})
  }

  predicate PastDedup(phase: Phase) {
    phase.Evaluating? || phase.Aggregating? || Past(phase)
  }

  /** How a goroutine may change in a step other than its own de-duplication. */
  predicate ActorKept(x: Actor, y: Actor) {
    match x
    case Handler(task, phase, stored) =>
      && y.Handler? && y.task == task && y.stored == stored
      && (Past(phase) ==> Past(y.phase))
      && (PastDedup(y.phase) ==> PastDedup(phase))
    case Scheduler(route, output, done, _) =>
      (y.Scheduler? && y.route == route && y.output == output && y.done == done) || y.Exited?
    case Exited => y.Exited?
  }

  predicate ActorsKept(s: State, t: State) {
    && (forall a | a in s.actors :: a in t.actors && ActorKept(s.actors[a], t.actors[a]))
    && (forall a | a in t.actors && a !in s.actors ::
          t.actors[a].Scheduler? || (t.actors[a].Handler? && t.actors[a].phase.Filtering? && t.actors[a].stored.None?))
  }

  lemma DedupShape(s: State, a: nat, message: string, key: string, expired: Option<Time>, t: State)
    requires InPhase(s, a, Deduping) && t == DedupStep(s, a, message, key, expired)
    ensures a in t.actors && t.actors[a].Handler? && t.actors == s.actors[a := t.actors[a]]
    ensures t.actors[a].task == s.actors[a].task
    ensures t.actors[a].phase in {Evaluating, Finished(Duplicate), Finished(Failed)}
    ensures t == s.(actors := t.actors, store := t.store, ops := t.ops)
    ensures s.actors[a].task.unique && t.actors[a].phase == Evaluating ==>
              && t.actors[a].stored == Some(|s.ops|)
              && t.ops == s.ops + [StoreHistory.Put(message, key, expired)]
              && MessageStore.StoreMessage(s.store, message, key, expired).1 == Ok(true)
    ensures t.actors[a].phase != Evaluating ==> t.actors[a].stored == s.actors[a].stored
    ensures !s.actors[a].task.unique ==> t.actors[a].stored == s.actors[a].stored
    ensures t.ops == s.ops || t.ops == s.ops + [StoreHistory.Put(message, key, expired)]
  {
  }

  lemma EnqueueShape(s: State, a: nat, t: State)
    requires a in s.actors && s.actors[a].Handler? && s.actors[a].phase.Aggregating?
    requires EnqueueStep(s, a) == Some(t)
    ensures t.sent == s.sent && t.dropped == s.dropped && a in t.actors && t.actors[a].Handler?
    ensures t.actors == s.actors[a := s.actors[a].(phase := t.actors[a].phase)]
    ensures if t.actors[a].phase.Building?
            then |t.parcels| == |s.parcels| + 1 && t.actors[a].phase == Building(|s.parcels|)
            else t.parcels == s.parcels && t.actors[a].phase in {Checking, Finished(Queued)}
    ensures s.actors[a].task.Mode().Timed? ==> t.actors[a].phase == Checking
  {
  }

  lemma ActorsAfterMove(s: State, l: Label, t: State)
    requires l.Filter? || l.Check? || l.Start?
    requires HandlerStep(s, l) == Some(t)
    ensures ActorsKept(s, t)
  {
  }

  lemma ActorsAfterSend(s: State, l: Label, t: State)
    requires (l.Build? || l.Send?) && HandlerStep(s, l) == Some(t)
    ensures ActorsKept(s, t)
  {
  }

  lemma ActorsAfterLaunch(s: State, l: Label, t: State)
    requires l.Launch? && HandlerStep(s, l) == Some(t)
    ensures ActorsKept(s, t)
  {
  }

  lemma ActorsAfterEvaluate(s: State, l: Label, t: State)
    requires l.Evaluate? && HandlerStep(s, l) == Some(t)
    ensures ActorsKept(s, t)
  {
    assert t == EvaluateStep(s, l.a, l.result);
  }

  lemma ActorsAfterScheduler(s: State, l: Label, t: State)
    requires SchedulerStep(s, l) == Some(t)
    ensures ActorsKept(s, t)
  {
  }

  lemma ActorsAfterStep(s: State, l: Label, t: State)
    requires Step(s, l) == Some(t) && !l.Dedup?
    ensures ActorsKept(s, t)
  {
    match l
    case Enqueue(a) => EnqueueShape(s, a, t);
    case Evaluate(_, _) => ActorsAfterEvaluate(s, l, t);
    case Launch(_, _) => ActorsAfterLaunch(s, l, t);
    case Build(_, _) => ActorsAfterSend(s, l, t);
    case Send(_) => ActorsAfterSend(s, l, t);
    case Tick(_) => ActorsAfterScheduler(s, l, t);
    case Deliver(_) => ActorsAfterScheduler(s, l, t);
    case Exit(_) => ActorsAfterScheduler(s, l, t);
    case Arrive(_, _) =>
    case Stop(_) =>
    case Clean(_) =>
    case _ => ActorsAfterMove(s, l, t);
  }

  // ---------- The databases are their own histories ----------

  ghost predicate HistoryKept(s: State) {
    s.queues == After(s.calls) && s.store == StoreHistory.At(s.ops, |s.ops|)
  }

  /** The aggregator call a step makes. */
  ghost function CallOf(s: State, l: Label): Option<Call<Item>> {
    match l
    case Enqueue(a) =>
      if a in s.actors && s.actors[a].Handler? && s.actors[a].phase.Aggregating? && !s.actors[a].task.Mode().Direct?
      then Some(EnqueueCall(a, s.actors[a].task, s.actors[a].phase.content)) else None
    case Tick(g) =>
      if g in s.actors && s.actors[g].Scheduler? then Some(Call(s.actors[g].route, None, 0, false)) else None
    case _ => None
  }

  ghost function StoreCallOf(s: State, l: Label): Option<StoreHistory.Op> {
    match l
    case Dedup(a, message, key, expired) =>
      if a in s.actors && s.actors[a].Handler? && s.actors[a].task.unique
      then Some(StoreHistory.Put(message, key, expired)) else None
    case Clean(op) => Some(op)
    case _ => None
  }

  /** The parcel a released batch becomes; an empty drain ships nothing. */
  function ParcelsOf(route: string, output: string, released: Option<seq<Item>>): seq<Parcel> {
    if released.Some? && |released.value| > 0 then [Parcel(route, output, true, released.value)] else []
  }

  /** The output of the goroutine that makes the call. */
  function CallerOutput(s: State, l: Label): string {
    if (l.Enqueue? || l.Tick?) && l.a in s.actors then
      match s.actors[l.a]
      case Handler(task, _, _) => task.output
      case Scheduler(_, output, _, _) => output
      case Exited => ""
    else ""
  }

  lemma EnqueueEffect(s: State, a: nat, t: State)
    requires a in s.actors && s.actors[a].Handler? && s.actors[a].phase.Aggregating?
    requires EnqueueStep(s, a) == Some(t)
    ensures !s.actors[a].task.Mode().Direct?
    ensures var c := EnqueueCall(a, s.actors[a].task, s.actors[a].phase.content);
            && t.calls == CallAggregator(s, c).0.calls && t.queues == CallAggregator(s, c).0.queues
            && t.parcels == s.parcels + ParcelsOf(c.route, s.actors[a].task.output, CallAggregator(s, c).1)
    ensures t == s.(actors := t.actors, calls := t.calls, queues := t.queues, parcels := t.parcels)
  {
  }

  lemma SchedulerEffect(s: State, l: Label, t: State)
    requires SchedulerStep(s, l) == Some(t)
    ensures t == s.(actors := t.actors, calls := t.calls, queues := t.queues, parcels := t.parcels, sent := t.sent)
    ensures !l.Tick? ==> t.calls == s.calls && t.queues == s.queues && t.parcels == s.parcels
    ensures l.Tick? ==>
              var c := Call(s.actors[l.a].route, None, 0, false);
              && t.calls == CallAggregator(s, c).0.calls && t.queues == CallAggregator(s, c).0.queues
              && t.parcels == s.parcels + ParcelsOf(c.route, s.actors[l.a].output, CallAggregator(s, c).1)
  {
  }

  lemma EvaluateEffect(s: State, l: Label, t: State)
    requires l.Evaluate? && HandlerStep(s, l) == Some(t)
    ensures t == s.(actors := t.actors, parcels := t.parcels)
    ensures t.parcels == s.parcels || exists p: Parcel :: t.parcels == s.parcels + [p] && !p.fromQueue
  {
    assert t == EvaluateStep(s, l.a, l.result);
  }

  lemma MoveEffect(s: State, l: Label, t: State)
    requires l.Filter? || l.Build? || l.Check? || l.Start? || l.Launch? || l.Send?
    requires HandlerStep(s, l) == Some(t)
    ensures t == s.(actors := t.actors, scheduling := t.scheduling, channels := t.channels, sent := t.sent,
        dropped := t.dropped)
    ensures !l.Start? ==> t.scheduling == s.scheduling && t.channels == s.channels
  {
  }

  lemma CallEffect(s: State, l: Label, t: State, c: Call<Item>)
    requires Step(s, l) == Some(t) && CallOf(s, l) == Some(c)
    ensures t.calls == CallAggregator(s, c).0.calls && t.queues == CallAggregator(s, c).0.queues
    ensures t.parcels == s.parcels + ParcelsOf(c.route, CallerOutput(s, l), CallAggregator(s, c).1)
    ensures t.store == s.store && t.ops == s.ops
  {
    match l
    case Enqueue(a) => EnqueueEffect(s, a, t);
    case Tick(_) => SchedulerEffect(s, l, t);
  }

  lemma NoCallEffect(s: State, l: Label, t: State)
    requires Step(s, l) == Some(t) && CallOf(s, l).None?
    ensures t.calls == s.calls && t.queues == s.queues
    ensures t.parcels == s.parcels || exists p: Parcel :: t.parcels == s.parcels + [p] && !p.fromQueue
  {
    match l
    case Dedup(a, message, key, expired) => DedupShape(s, a, message, key, expired, t);
    case Evaluate(_, _) => EvaluateEffect(s, l, t);
    case Enqueue(a) => EnqueueEffect(s, a, t);
    case Deliver(_) => SchedulerEffect(s, l, t);
    case Exit(_) => SchedulerEffect(s, l, t);
    case Tick(_) =>
    case Arrive(_, _) =>
    case Stop(_) =>
    case Clean(_) =>
    case _ => MoveEffect(s, l, t);
  }

  lemma StoreEffect(s: State, l: Label, t: State)
    requires Step(s, l) == Some(t)
    ensures t.store == (match StoreCallOf(s, l) case Some(op) => StoreHistory.Apply(s.store, op) case None => s.store)
    ensures t.ops == s.ops + List(StoreCallOf(s, l))
  {
    match l
    case Dedup(a, message, key, expired) => DedupStore(s, a, message, key, expired, t);
    case Evaluate(_, _) => EvaluateEffect(s, l, t);
    case Enqueue(a) => EnqueueEffect(s, a, t);
    case Tick(_) => SchedulerEffect(s, l, t);
    case Deliver(_) => SchedulerEffect(s, l, t);
    case Exit(_) => SchedulerEffect(s, l, t);
    case Arrive(_, _) =>
    case Stop(_) =>
    case Clean(_) =>
    case _ => MoveEffect(s, l, t);
  }

  lemma DedupStore(s: State, a: nat, message: string, key: string, expired: Option<Time>, t: State)
    requires InPhase(s, a, Deduping) && t == DedupStep(s, a, message, key, expired)
    ensures if s.actors[a].task.unique
            then t.store == StoreHistory.Apply(s.store, StoreHistory.Put(message, key, expired))
                 && t.ops == s.ops + [StoreHistory.Put(message, key, expired)]
            else t.store == s.store && t.ops == s.ops
  {
  }

  lemma HistoryStep(s: State, l: Label, t: State)
    requires HistoryKept(s) && Step(s, l) == Some(t)
    ensures HistoryKept(t)
  {
    StoreEffect(s, l, t);
    if StoreCallOf(s, l).Some? {
      StoreHistory.AtOfPrefix(s.ops, [StoreCallOf(s, l).value], |s.ops|);
    } else {
      assert t.ops == s.ops;
    }
    match CallOf(s, l)
    case None => NoCallEffect(s, l, t);
    case Some(c) =>
      CallEffect(s, l, t, c);
      assert (s.calls + [c])[..|s.calls|] == s.calls;
  }

  // ---------- Parcels and batches ----------

  /** The batches among the parcels that came out of the queue of a route. */
  function QueueBatches(parcels: seq<Parcel>, route: string): seq<seq<Item>> {
    if parcels == [] then [] else
      var p := parcels[|parcels| - 1];
      QueueBatches(parcels[..|parcels| - 1], route) + (if p.fromQueue && p.route == route then [p.items] else [])
  }

  ghost predicate ParcelsKept(s: State) {
    forall route :: Unroll(QueueBatches(s.parcels, route)) == Unroll(Batches(s.calls, route))
  }

  lemma ParcelsStep(s: State, l: Label, t: State)
    requires HistoryKept(s) && ParcelsKept(s) && Step(s, l) == Some(t)
    ensures ParcelsKept(t)
  {
    match CallOf(s, l)
    case None =>
      NoCallEffect(s, l, t);
      if t.parcels != s.parcels {
        var p: Parcel :| t.parcels == s.parcels + [p] && !p.fromQueue;
        forall route ensures QueueBatches(t.parcels, route) == QueueBatches(s.parcels, route) {
          assert t.parcels[..|s.parcels|] == s.parcels;
        }
      }
    case Some(c) =>
      CallEffect(s, l, t, c);
      assert t.calls[..|s.calls|] == s.calls;
      forall route ensures Unroll(QueueBatches(t.parcels, route)) == Unroll(Batches(t.calls, route)) {
        ParcelsOfCall(s, c, CallerOutput(s, l), route);
      }
  }

  lemma ParcelsOfCall(s: State, c: Call<Item>, output: string, route: string)
    requires HistoryKept(s) && ParcelsKept(s)
    ensures Unroll(QueueBatches(s.parcels + ParcelsOf(c.route, output, CallAggregator(s, c).1), route))
         == Unroll(Batches(s.calls + [c], route))
  {
    var released := CallAggregator(s, c).1;
    BatchesOfCall(s, c, route);
    QueueBatchesGrow(s.parcels, c.route, output, released, route);
    if c.route == route {
      UnrollAppend(Batches(s.calls, route), released);
      UnrollAppend(QueueBatches(s.parcels, route), released);
    } else {
      assert Batches(s.calls, route) + [] == Batches(s.calls, route);
      assert QueueBatches(s.parcels, route) + [] == QueueBatches(s.parcels, route);
    }
  }

  lemma BatchesOfCall(s: State, c: Call<Item>, route: string)
    requires HistoryKept(s)
    ensures Batches(s.calls + [c], route)
         == Batches(s.calls, route) + (if c.route == route then List(CallAggregator(s, c).1) else [])
  {
    assert (s.calls + [c])[..|s.calls|] == s.calls;
  }

  lemma QueueBatchesGrow(parcels: seq<Parcel>, from: string, output: string, released: Option<seq<Item>>, route: string)
    ensures Unroll(QueueBatches(parcels + ParcelsOf(from, output, released), route))
         == Unroll(QueueBatches(parcels, route) + (if from == route then List(released) else []))
  {
    var ps := ParcelsOf(from, output, released);
    if ps != [] {
      assert (parcels + ps)[..|parcels|] == parcels;
      assert ps == [Parcel(from, output, true, released.value)];
    } else {
      assert parcels + ps == parcels;
      if from == route && released.Some? {
        assert released.value == [];
        UnrollAppend(QueueBatches(parcels, route), released);
        assert Unroll([released.value]) == Unroll([released.value][..0]) + Reverse(released.value);
      } else {
        assert QueueBatches(parcels, route) + [] == QueueBatches(parcels, route);
      }
    }
  }

  // ---------- Each handler enqueues at most once ----------

  predicate Enqueuer(s: State, h: nat, route: string) {
    h in s.actors && s.actors[h].Handler? && s.actors[h].task.route == route && Past(s.actors[h].phase)
  }

  ghost predicate ArrivalsOwned(s: State) {
    && (forall route, i | 0 <= i < |Arrivals(s.calls, route)| ::
          Enqueuer(s, Arrivals(s.calls, route)[i].handler, route))
    && (forall route, i, j | 0 <= i < j < |Arrivals(s.calls, route)| ::
          Arrivals(s.calls, route)[i].handler != Arrivals(s.calls, route)[j].handler)
  }

  lemma EnqueuersRemain(s: State, l: Label, t: State, h: nat, route: string)
    requires Step(s, l) == Some(t) && Enqueuer(s, h, route)
    ensures Enqueuer(t, h, route)
  {
    if l.Dedup? {
      DedupShape(s, l.a, l.message, l.key, l.expired, t);
    } else {
      ActorsAfterStep(s, l, t);
    }
  }

  /** A handler that calls the aggregator has not done so before. */
  lemma EnqueuerIsNew(s: State, l: Label, t: State, c: Call<Item>)
    requires Step(s, l) == Some(t) && CallOf(s, l) == Some(c)
    ensures c.scan.Some? ==>
              && l.Enqueue? && c.scan.value.handler == l.a
              && Enqueuer(t, l.a, c.route) && forall route :: !Enqueuer(s, l.a, route)
  {
    if l.Enqueue? {
      EnqueueShape(s, l.a, t);
    }
  }

  lemma ArrivalsStep(s: State, l: Label, t: State)
    requires ArrivalsOwned(s) && Step(s, l) == Some(t)
    ensures ArrivalsOwned(t)
  {
    forall h, route | Enqueuer(s, h, route) ensures Enqueuer(t, h, route) {
      EnqueuersRemain(s, l, t, h, route);
    }
    match CallOf(s, l)
    case None => NoCallEffect(s, l, t);
    case Some(c) =>
      CallEffect(s, l, t, c);
      EnqueuerIsNew(s, l, t, c);
      ArrivalsAppended(s, t, c);
  }

  lemma ArrivalsAppended(s: State, t: State, c: Call<Item>)
    requires ArrivalsOwned(s) && t.calls == s.calls + [c]
    requires forall h, route | Enqueuer(s, h, route) :: Enqueuer(t, h, route)
    requires c.scan.Some? ==>
               && Enqueuer(t, c.scan.value.handler, c.route)
               && forall route :: !Enqueuer(s, c.scan.value.handler, route)
    ensures ArrivalsOwned(t)
  {
    assert t.calls[..|s.calls|] == s.calls;
  }

  // ---------- Custody of parcels ----------

  predicate Holds(a: Actor, p: nat) {
    match a
    case Handler(_, phase, _) => (phase.Building? || phase.Sending?) && phase.parcel == p
    case Scheduler(_, _, _, batch) => batch == Some(p)
    case Exited => false
  }

  ghost predicate Held(s: State, p: nat) {
    exists a :: a in s.actors && Holds(s.actors[a], p)
  }

  /** Every parcel formed is with one goroutine, or was sent once, or was given up once,
      and never two of these. */
  ghost predicate Custody(s: State) {
    && (forall p: nat | p < |s.parcels| :: Held(s, p) || p in s.sent || p in s.dropped)
    && (forall a, p: nat {:trigger Holds(s.actors[a], p)} | a in s.actors && Holds(s.actors[a], p) ::
          p < |s.parcels| && p !in s.sent && p !in s.dropped)
    && (forall a, b, p: nat | a in s.actors && b in s.actors && Holds(s.actors[a], p) && Holds(s.actors[b], p) ::
          a == b)
    && (forall i, j | 0 <= i < j < |s.sent| :: s.sent[i] != s.sent[j])
    && (forall i, j | 0 <= i < j < |s.dropped| :: s.dropped[i] != s.dropped[j])
    && (forall p | p in s.sent :: p < |s.parcels| && p !in s.dropped)
    && (forall p | p in s.dropped :: p < |s.parcels|)
  }

  /** Steps that hand over no parcel. */
  lemma CustodyUntouched(s: State, t: State)
    requires Custody(s)
    requires t.parcels == s.parcels && t.sent == s.sent && t.dropped == s.dropped
    requires forall a, p: nat | a in t.actors && Holds(t.actors[a], p) :: a in s.actors && Holds(s.actors[a], p)
    requires forall a, p: nat | a in s.actors && Holds(s.actors[a], p) :: a in t.actors && Holds(t.actors[a], p)
    ensures Custody(t)
  {
    forall p: nat | p < |t.parcels| ensures Held(t, p) || p in t.sent || p in t.dropped {
      if Held(s, p) {
        var a :| a in s.actors && Holds(s.actors[a], p);
        assert Holds(t.actors[a], p);
      }
    }
  }

  /** A goroutine with empty hands forms a parcel. */
  lemma CustodyTaken(s: State, t: State, a: nat, x: Actor)
    requires Custody(s) && a in s.actors && forall p: nat :: !Holds(s.actors[a], p)
    requires t.actors == s.actors[a := x] && forall p: nat :: Holds(x, p) <==> p == |s.parcels|
    requires |t.parcels| == |s.parcels| + 1 && t.sent == s.sent && t.dropped == s.dropped
    ensures Custody(t)
  {
    forall p: nat | p < |t.parcels| ensures Held(t, p) || p in t.sent || p in t.dropped {
      if p == |s.parcels| {
        assert Holds(t.actors[a], p);
      } else if Held(s, p) {
        var b :| b in s.actors && Holds(s.actors[b], p);
        assert Holds(t.actors[b], p);
      }
    }
    forall b, c, p: nat | b in t.actors && c in t.actors && Holds(t.actors[b], p) && Holds(t.actors[c], p)
      ensures b == c
    {
      assert b != a ==> b in s.actors && Holds(s.actors[b], p) && p < |s.parcels|;
      assert c != a ==> c in s.actors && Holds(s.actors[c], p) && p < |s.parcels|;
      assert b == a || c == a ==> p == |s.parcels|;
    }
  }

  /** A goroutine hands its parcel over, to the output or to nobody. */
  lemma CustodyGiven(s: State, t: State, a: nat, x: Actor, given: nat)
    requires Custody(s) && a in s.actors && Holds(s.actors[a], given)
    requires t.actors == s.actors[a := x] && forall p: nat :: !Holds(x, p)
    requires t.parcels == s.parcels
    requires (t.sent == s.sent + [given] && t.dropped == s.dropped)
        || (t.sent == s.sent && t.dropped == s.dropped + [given])
    ensures Custody(t)
  {
    assert given !in s.sent && given !in s.dropped;
    assert forall i | 0 <= i < |s.sent| :: s.sent[i] in s.sent;
    assert forall i | 0 <= i < |s.dropped| :: s.dropped[i] in s.dropped;
    forall p: nat | p < |t.parcels| ensures Held(t, p) || p in t.sent || p in t.dropped {
      if p != given && Held(s, p) {
        var b :| b in s.actors && Holds(s.actors[b], p);
        assert Holds(t.actors[b], p);
      }
    }
  }

  lemma CustodyEvaluate(s: State, a: nat, result: Option<Scan>, t: State)
    requires Custody(s) && InPhase(s, a, Evaluating) && t == EvaluateStep(s, a, result)
    ensures Custody(t)
  {
    if |t.parcels| > |s.parcels| { CustodyTaken(s, t, a, t.actors[a]); } else { CustodyUntouched(s, t); }
  }

  lemma CustodyEnqueue(s: State, a: nat, t: State)
    requires Custody(s) && a in s.actors && s.actors[a].Handler? && s.actors[a].phase.Aggregating?
    requires EnqueueStep(s, a) == Some(t)
    ensures Custody(t)
  {
    EnqueueShape(s, a, t);
    if |t.parcels| > |s.parcels| { CustodyTaken(s, t, a, t.actors[a]); } else { CustodyUntouched(s, t); }
  }

  lemma CustodyDedup(s: State, l: Label, t: State)
    requires Custody(s) && l.Dedup? && Step(s, l) == Some(t)
    ensures Custody(t)
  {
    DedupShape(s, l.a, l.message, l.key, l.expired, t);
    CustodyUntouched(s, t);
  }

  lemma CustodyScheduler(s: State, l: Label, t: State)
    requires Custody(s) && SchedulerStep(s, l) == Some(t)
    ensures Custody(t)
  {
    match l
    case Tick(g) =>
      if |t.parcels| > |s.parcels| { CustodyTaken(s, t, g, t.actors[g]); } else { CustodyUntouched(s, t); }
    case Deliver(g) => CustodyGiven(s, t, g, t.actors[g], s.actors[g].batch.value);
    case Exit(g) => CustodyUntouched(s, t);
  }

  lemma CustodyHandOver(s: State, l: Label, t: State)
    requires Custody(s) && (l.Build? || l.Send?) && HandlerStep(s, l) == Some(t)
    ensures Custody(t)
  {
    match l
    case Build(a, ok) =>
      if ok { CustodyUntouched(s, t); } else { CustodyGiven(s, t, a, t.actors[a], s.actors[a].phase.parcel); }
    case Send(a) => CustodyGiven(s, t, a, t.actors[a], s.actors[a].phase.parcel);
  }

  lemma CustodyMove(s: State, l: Label, t: State)
    requires Custody(s) && (l.Filter? || l.Check? || l.Start? || l.Launch?) && HandlerStep(s, l) == Some(t)
    ensures Custody(t)
  {
    CustodyUntouched(s, t);
  }

  lemma CustodyStep(s: State, l: Label, t: State)
    requires Custody(s) && Step(s, l) == Some(t)
    ensures Custody(t)
  {
    match l
    case Dedup(_, _, _, _) => CustodyDedup(s, l, t);
    case Evaluate(a, result) => CustodyEvaluate(s, a, result, t);
    case Enqueue(a) => CustodyEnqueue(s, a, t);
    case Build(_, _) => CustodyHandOver(s, l, t);
    case Send(_) => CustodyHandOver(s, l, t);
    case Tick(_) => CustodyScheduler(s, l, t);
    case Deliver(_) => CustodyScheduler(s, l, t);
    case Exit(_) => CustodyScheduler(s, l, t);
    case Arrive(_, _) => CustodyUntouched(s, t);
    case Stop(_) => CustodyUntouched(s, t);
    case Clean(_) => CustodyUntouched(s, t);
    case _ => CustodyMove(s, l, t);
  }

  // ---------- Every interleaving ----------

  ghost predicate Safe(s: State) {
    HistoryKept(s) && ParcelsKept(s) && ArrivalsOwned(s) && Custody(s)
  }

  lemma InitiallySafe()
    ensures Safe(INITIAL)
  {
  }

  lemma {:induction false} AlwaysSafe(s: State, labels: seq<Label>, t: State)
    requires Safe(s) && Run(s, labels) == Some(t)
    ensures Safe(t)
    decreases |labels|
  {
    if labels != [] {
      var u := Step(s, labels[0]).value;
      HistoryStep(s, labels[0], u);
      ParcelsStep(s, labels[0], u);
      ArrivalsStep(s, labels[0], u);
      CustodyStep(s, labels[0], u);
      AlwaysSafe(u, labels[1..], t);
    }
  }

  /** How often a message occurs in a list of batches. */
  function Occurrences(batches: seq<seq<Item>>, x: Item): nat {
    if batches == [] then 0 else
      Occurrences(batches[..|batches| - 1], x) + multiset(batches[|batches| - 1])[x]
  }

  lemma {:induction false} ReverseKeepsElements<T>(s: seq<T>)
    ensures multiset(Reverse(s)) == multiset(s)
  {
    if s != [] {
      ReverseKeepsElements(s[1..]);
      assert s == [s[0]] + s[1..];
    }
  }

  lemma {:induction false} UnrollOccurrences(batches: seq<seq<Item>>, x: Item)
    ensures multiset(Unroll(batches))[x] == Occurrences(batches, x)
  {
    if batches != [] {
      UnrollOccurrences(batches[..|batches| - 1], x);
      ReverseKeepsElements(batches[|batches| - 1]);
    }
  }

  lemma {:induction false} DistinctOccursOnce(s: seq<Item>, x: Item)
    requires forall i, j | 0 <= i < j < |s| :: s[i].handler != s[j].handler
    ensures multiset(s)[x] == if x in s then 1 else 0
  {
    if s != [] {
      DistinctOccursOnce(s[1..], x);
      assert s == [s[0]] + s[1..];
      assert s[0] in s[1..] ==> exists k :: 0 <= k < |s[1..]| && s[1..][k] == s[0];
    }
  }

  /** Conservation. Under every interleaving of handlers, racing schedulers and cleanups a
      message that was enqueued on a route is pending once, or in one released batch once,
      and never both; nothing else is ever pending or released. */
  lemma EnqueuedExactlyOnce(labels: seq<Label>, s: State, route: string, x: Item)
    requires Run(INITIAL, labels) == Some(s)
    ensures multiset(QueueOf(s.queues, route))[x] + Occurrences(QueueBatches(s.parcels, route), x)
         == if x in Arrivals(s.calls, route) then 1 else 0
  {
    InitiallySafe();
    AlwaysSafe(INITIAL, labels, s);
    var queue, batches := QueueOf(s.queues, route), QueueBatches(s.parcels, route);
    ArrivalsAreBatchesThenPending(s.calls, route);
    DistinctOccursOnce(Arrivals(s.calls, route), x);
    ReverseKeepsElements(queue);
    UnrollOccurrences(batches, x);
    assert multiset(Arrivals(s.calls, route)) == multiset(Unroll(batches)) + multiset(Reverse(queue));
  }

  /** Order. The batches that left a route and its pending queue, read backwards, are its
      messages in the order of their arrival. */
  lemma BatchesKeepArrivalOrder(labels: seq<Label>, s: State, route: string)
    requires Run(INITIAL, labels) == Some(s)
    ensures Arrivals(s.calls, route) == Unroll(QueueBatches(s.parcels, route)) + Reverse(QueueOf(s.queues, route))
  {
    InitiallySafe();
    AlwaysSafe(INITIAL, labels, s);
    ArrivalsAreBatchesThenPending(s.calls, route);
  }

  /** Delivery. Every parcel is with exactly one goroutine, or was sent exactly once, or was
      given up exactly once. */
  lemma ParcelsSentAtMostOnce(labels: seq<Label>, s: State, p: nat)
    requires Run(INITIAL, labels) == Some(s) && p < |s.parcels|
    ensures multiset(s.sent)[p] + multiset(s.dropped)[p] + (if Held(s, p) then 1 else 0) == 1
    ensures forall a, b | a in s.actors && b in s.actors && Holds(s.actors[a], p) && Holds(s.actors[b], p) :: a == b
  {
    InitiallySafe();
    AlwaysSafe(INITIAL, labels, s);
    NoRepeatOccursOnce(s.sent, p);
    NoRepeatOccursOnce(s.dropped, p);
  }

  lemma {:induction false} NoRepeatOccursOnce(s: seq<nat>, x: nat)
    requires forall i, j | 0 <= i < j < |s| :: s[i] != s[j]
    ensures multiset(s)[x] == if x in s then 1 else 0
  {
    if s != [] {
      NoRepeatOccursOnce(s[1..], x);
      assert s == [s[0]] + s[1..];
      assert s[0] in s[1..] ==> exists k :: 0 <= k < |s[1..]| && s[1..][k] == s[0];
    }
  }

  /** A tick takes everything that is pending on the route and leaves its queue empty. */
  lemma TickDrainsTheRoute(s: State, g: nat, t: State)
    requires Step(s, Tick(g)) == Some(t) && s.actors[g].route != ""
    ensures var route := s.actors[g].route;
            && QueueOf(t.queues, route) == []
            && (QueueOf(s.queues, route) == [] ==> t.parcels == s.parcels)
            && (QueueOf(s.queues, route) != [] ==>
                  t.parcels == s.parcels + [Parcel(route, s.actors[g].output, true, QueueOf(s.queues, route))]
                  && Holds(t.actors[g], |s.parcels|))
  {
    var queue := QueueOf(s.queues, s.actors[g].route);
    assert [] + queue == queue;
  }
}
