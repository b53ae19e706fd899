/** Where messages and outcomes come from. A run is read next to the labels of its steps: what a
    handler ships is what its own evaluation rendered, and how it ends is what its own steps said. */
module PipelineProvenance {
  import opened Wrappers
  import opened Aggregator
  import opened Pipeline
  import opened PipelineSafety
  import opened PipelineDelivery

  // ---------- What each step does to its own goroutine ----------

  /** The phases a step of a handler leads from and to. */
  predicate Moves(l: Label, task: Task, x: Phase, y: Phase, parcels: nat) {
    match l
    case Filter(_, matches) => x == Filtering && y == if matches then Deduping else Finished(Rejected)
    case Dedup(_, _, _, _) => x == Deduping && y in {Evaluating, Finished(Duplicate), Finished(Failed)}
    case Evaluate(_, result) =>
      && x == Evaluating
      && (result.None? ==> y == Finished(Failed))
      && (result.Some? && !(task.aggregationSupported && (task.number > 0 || task.timeout > 0)) ==>
            y == Sending(parcels))
      && (result.Some? && task.aggregationSupported && (task.number > 0 || task.timeout > 0) ==>
            y == Aggregating(result.value))
    case Enqueue(_) =>
      && x.Aggregating? && task.aggregationSupported
      && (task.number > 0 ==> y in {Building(parcels), Finished(Queued)})
      && (task.number <= 0 ==> task.timeout > 0 && y == Checking)
    case Build(_, ok) => x.Building? && y == if ok then Sending(x.parcel) else Finished(Dropped)
    case Check(_) => x == Checking && y in {Starting, Finished(Queued)}
    case Start(_) => x == Starting && y == Launching
    case Launch(_, _) => x == Launching && y == Finished(Queued)
    case Send(_) => x.Sending? && y == Finished(Delivered)
    case _ => false
  }

  predicate HandlerLabel(l: Label) {
    l.Filter? || l.Dedup? || l.Evaluate? || l.Enqueue? || l.Build? || l.Check? || l.Start? || l.Launch? || l.Send?
  }

  /** The step of one goroutine leaves all others as they are. */
  predicate OnlyActs(s: State, a: nat, t: State) {
    forall b | b in s.actors && b != a :: b in t.actors && t.actors[b] == s.actors[b]
  }

  predicate Moved(s: State, l: Label, t: State)
    requires HandlerLabel(l)
  {
    && l.a in s.actors && s.actors[l.a].Handler? && l.a in t.actors && t.actors[l.a].Handler?
    && t.actors[l.a].task == s.actors[l.a].task
    && Moves(l, s.actors[l.a].task, s.actors[l.a].phase, t.actors[l.a].phase, |s.parcels|)
    && OnlyActs(s, l.a, t)
    && (forall b | b in t.actors && b !in s.actors :: t.actors[b].Scheduler?)
  }

  lemma DedupMoves(s: State, l: Label, t: State)
    requires l.Dedup? && Step(s, l) == Some(t)
    ensures Moved(s, l, t)
  {
    DedupShape(s, l.a, l.message, l.key, l.expired, t);
  }

  lemma EvaluateMoves(s: State, l: Label, t: State)
    requires l.Evaluate? && Step(s, l) == Some(t)
    ensures Moved(s, l, t)
  {
    assert t == EvaluateStep(s, l.a, l.result);
  }

  lemma EnqueueMoves(s: State, l: Label, t: State)
    requires l.Enqueue? && Step(s, l) == Some(t)
    ensures Moved(s, l, t)
  {
    EnqueueShape(s, l.a, t);
    CountedDoesNotCheck(s, l.a, t);
  }

  lemma CountedDoesNotCheck(s: State, a: nat, t: State)
    requires a in s.actors && s.actors[a].Handler? && s.actors[a].phase.Aggregating? && EnqueueStep(s, a) == Some(t)
    ensures a in t.actors && t.actors[a].Handler?
    ensures s.actors[a].task.Mode().Count? ==> t.actors[a].phase != Checking
  {
  }

  lemma LaunchMoves(s: State, l: Label, t: State)
    requires l.Launch? && Step(s, l) == Some(t)
    ensures Moved(s, l, t)
  {
  }

  lemma SimpleMoves(s: State, l: Label, t: State)
    requires (l.Filter? || l.Check? || l.Start?) && Step(s, l) == Some(t)
    ensures Moved(s, l, t)
  {
  }

  lemma ParcelMoves(s: State, l: Label, t: State)
    requires (l.Build? || l.Send?) && Step(s, l) == Some(t)
    ensures Moved(s, l, t)
  {
  }

  lemma HandlerMoves(s: State, l: Label, t: State)
    requires HandlerLabel(l) && Step(s, l) == Some(t)
    ensures Moved(s, l, t)
  {
    match l
    case Dedup(_, _, _, _) => DedupMoves(s, l, t);
    case Evaluate(_, _) => EvaluateMoves(s, l, t);
    case Enqueue(_) => EnqueueMoves(s, l, t);
    case Launch(_, _) => LaunchMoves(s, l, t);
    case Build(_, _) => ParcelMoves(s, l, t);
    case Send(_) => ParcelMoves(s, l, t);
    case _ => SimpleMoves(s, l, t);
  }

  /** No other step changes a handler, or makes one but for an arrival. */
  lemma OthersLeaveHandlers(s: State, l: Label, t: State, a: nat)
    requires !HandlerLabel(l) && Step(s, l) == Some(t) && a in t.actors && t.actors[a].Handler?
    ensures if a in s.actors then t.actors[a] == s.actors[a]
            else l.Arrive? && a == l.a && t.actors[a] == Handler(l.task, Filtering, None)
  {
  }

  // ---------- How a handler got where it is ----------

  ghost predicate Rendered(done: seq<Label>, a: nat) {
    exists content :: Evaluate(a, Some(content)) in done
  }

  ghost predicate LookedUp(done: seq<Label>, a: nat) {
    exists message, key, expired :: Dedup(a, message, key, expired) in done
  }

  /** The steps of handler `a` among `done` that account for its task and phase. */
  ghost predicate Explains(done: seq<Label>, a: nat, task: Task, phase: Phase) {
    && Arrive(a, task) in done
    && match phase
       case Filtering => true
       case Finished(Rejected) => Filter(a, false) in done
       case Deduping => Filter(a, true) in done
       case Evaluating => Filter(a, true) in done && LookedUp(done, a)
       case Finished(Duplicate) => Filter(a, true) in done && LookedUp(done, a)
       case Finished(Failed) => Filter(a, true) in done && LookedUp(done, a)
       case Aggregating(content) =>
         Filter(a, true) in done && Evaluate(a, Some(content)) in done
         && task.aggregationSupported && (task.number > 0 || task.timeout > 0)
       case Building(_) =>
         Filter(a, true) in done && Rendered(done, a) && task.aggregationSupported && task.number > 0
       case Sending(_) =>
         Filter(a, true) in done && Rendered(done, a)
         && (Build(a, true) in done || !(task.aggregationSupported && (task.number > 0 || task.timeout > 0)))
       case Finished(Delivered) =>
         Filter(a, true) in done && Rendered(done, a) && Send(a) in done
         && (Build(a, true) in done || !(task.aggregationSupported && (task.number > 0 || task.timeout > 0)))
       case Finished(Dropped) => Filter(a, true) in done && Rendered(done, a) && Build(a, false) in done
       case Finished(Queued) =>
         && Filter(a, true) in done && Rendered(done, a)
         && task.aggregationSupported && (task.number > 0 || task.timeout > 0)
       case _ =>
         && Filter(a, true) in done && Rendered(done, a)
         && task.aggregationSupported && task.number <= 0 && task.timeout > 0
  }

  ghost predicate Explained(s: State, done: seq<Label>) {
    forall a | a in s.actors && s.actors[a].Handler? :: Explains(done, a, s.actors[a].task, s.actors[a].phase)
  }

  lemma ExplainsMore(done: seq<Label>, l: Label, a: nat, task: Task, phase: Phase)
    requires Explains(done, a, task, phase)
    ensures Explains(done + [l], a, task, phase)
  {
    assert forall k | k in done :: k in done + [l];
    if LookedUp(done, a) {
      var message, key, expired :| Dedup(a, message, key, expired) in done;
      assert Dedup(a, message, key, expired) in done + [l];
    }
    if Rendered(done, a) {
      var content :| Evaluate(a, Some(content)) in done;
      assert Evaluate(a, Some(content)) in done + [l];
    }
  }

  /** A step adds its own label to the account. */
  lemma ExplainsMove(done: seq<Label>, l: Label, task: Task, x: Phase, y: Phase, parcels: nat)
    requires HandlerLabel(l) && Explains(done, l.a, task, x) && Moves(l, task, x, y, parcels)
    ensures Explains(done + [l], l.a, task, y)
  {
    ExplainsMore(done, l, l.a, task, x);
    assert l in done + [l];
    if l.Evaluate? && l.result.Some? {
      assert Evaluate(l.a, Some(l.result.value)) in done + [l];
    }
    if x.Aggregating? {
      assert Evaluate(l.a, Some(x.content)) in done + [l];
    }
    if l.Dedup? {
      assert Dedup(l.a, l.message, l.key, l.expired) in done + [l];
    }
  }

  lemma ExplainedStep(s: State, done: seq<Label>, l: Label, t: State)
    requires Explained(s, done) && Step(s, l) == Some(t)
    ensures Explained(t, done + [l])
  {
    if HandlerLabel(l) { HandlerMoves(s, l, t); }
    forall a | a in t.actors && t.actors[a].Handler?
      ensures Explains(done + [l], a, t.actors[a].task, t.actors[a].phase)
    {
      if HandlerLabel(l) {
        if a == l.a {
          ExplainsMove(done, l, s.actors[a].task, s.actors[a].phase, t.actors[a].phase, |s.parcels|);
        } else {
          ExplainsMore(done, l, a, s.actors[a].task, s.actors[a].phase);
        }
      } else {
        OthersLeaveHandlers(s, l, t, a);
        if a in s.actors {
          ExplainsMore(done, l, a, s.actors[a].task, s.actors[a].phase);
        } else {
          assert l in done + [l];
        }
      }
    }
  }

  // ---------- One evaluation each ----------

  /** Where a handler is after its evaluation gave `result`. */
  predicate After(result: Option<Scan>, phase: Phase) {
    match result
    case None => phase == Finished(Failed)
    case Some(content) => phase == Aggregating(content) || Past(phase)
  }

  /** A handler is evaluated once, and goes on from there. */
  ghost predicate EvaluatedOnce(s: State, done: seq<Label>) {
    && (forall a, r | Evaluate(a, r) in done ::
          a in s.actors && s.actors[a].Handler? && After(r, s.actors[a].phase))
    && (forall a, q, r | Evaluate(a, q) in done && Evaluate(a, r) in done :: q == r)
  }

  lemma NeverBack(s: State, l: Label, t: State, a: nat)
    requires Step(s, l) == Some(t) && a in s.actors && s.actors[a].Handler?
    ensures a in t.actors && t.actors[a].Handler? && t.actors[a].task == s.actors[a].task
    ensures forall r | After(r, s.actors[a].phase) :: After(r, t.actors[a].phase)
    ensures l.Evaluate? && l.a == a ==> After(l.result, t.actors[a].phase) && s.actors[a].phase.Evaluating?
  {
    if HandlerLabel(l) {
      HandlerMoves(s, l, t);
    } else {
      HandlerStays(s, l, t, a);
    }
  }

  lemma HandlerStays(s: State, l: Label, t: State, a: nat)
    requires !HandlerLabel(l) && Step(s, l) == Some(t) && a in s.actors && s.actors[a].Handler?
    ensures a in t.actors && t.actors[a] == s.actors[a]
  {
  }

  lemma EvaluatedStep(s: State, done: seq<Label>, l: Label, t: State)
    requires EvaluatedOnce(s, done) && Step(s, l) == Some(t)
    ensures EvaluatedOnce(t, done + [l])
  {
    if l.Evaluate? { HandlerMoves(s, l, t); }
    forall a, r | Evaluate(a, r) in done + [l]
      ensures a in t.actors && t.actors[a].Handler? && After(r, t.actors[a].phase)
    {
      assert Evaluate(a, r) in done || Evaluate(a, r) == l;
      NeverBack(s, l, t, a);
    }
    forall a, q, r | Evaluate(a, q) in done + [l] && Evaluate(a, r) in done + [l] ensures q == r {
      assert Evaluate(a, q) in done || Evaluate(a, q) == l;
      assert Evaluate(a, r) in done || Evaluate(a, r) == l;
    }
  }

  // ---------- Items ----------

  predicate ItemAt(s: State, w: Place, x: Item) {
    match w
    case InParcel(p, i) => p < |s.parcels| && i < |s.parcels[p].items| && s.parcels[p].items[i] == x
    case InQueue(r, i) => i < |QueueOf(s.queues, r)| && QueueOf(s.queues, r)[i] == x
  }

  /** Every message that waits or travels has the content its handler's evaluation rendered. */
  ghost predicate ItemsRendered(s: State, done: seq<Label>) {
    forall w, x | ItemAt(s, w, x) :: Evaluate(x.handler, Some(x.content)) in done
  }

  lemma ItemCameFrom(s: State, t: State, c: Call<Item>, output: string, w: Place, x: Item)
    requires PipelineDelivery.Moved(s, t, c, output) && ItemAt(t, w, x)
    ensures match Before(s, c, w) case Some(v) => ItemAt(s, v, x) case None => c.scan == Some(x)
  {
  }

  lemma CalledScan(s: State, l: Label, t: State, c: Call<Item>)
    requires Step(s, l) == Some(t) && CallOf(s, l) == Some(c) && c.scan.Some?
    ensures l.Enqueue? && c.scan == Some(Item(l.a, s.actors[l.a].phase.content)) && |s.actors[l.a].phase.content| > 0
  {
  }

  lemma ItemsAfterCall(s: State, done: seq<Label>, l: Label, t: State, c: Call<Item>)
    requires ItemsRendered(s, done) && Explained(s, done)
    requires Step(s, l) == Some(t) && CallOf(s, l) == Some(c) && c.route != ""
    ensures ItemsRendered(t, done + [l])
  {
    CallMoves(s, l, t, c);
    forall w, x | ItemAt(t, w, x) ensures Evaluate(x.handler, Some(x.content)) in done {
      ItemCameFrom(s, t, c, CallerOutput(s, l), w, x);
      if Before(s, c, w).None? {
        CalledScan(s, l, t, c);
        assert Explains(done, l.a, s.actors[l.a].task, s.actors[l.a].phase);
      }
    }
  }

  lemma ItemsAfterEvaluate(s: State, done: seq<Label>, l: Label, t: State)
    requires ItemsRendered(s, done) && l.Evaluate? && Step(s, l) == Some(t)
    ensures ItemsRendered(t, done + [l])
  {
    assert t == EvaluateStep(s, l.a, l.result);
    forall w, x | ItemAt(t, w, x) ensures Evaluate(x.handler, Some(x.content)) in done + [l] {
      if ItemAt(s, w, x) {
        assert Evaluate(x.handler, Some(x.content)) in done;
      } else {
        assert l == Evaluate(x.handler, Some(x.content)) && l in done + [l];
      }
    }
  }

  lemma ItemsUntouched(s: State, done: seq<Label>, l: Label, t: State)
    requires ItemsRendered(s, done) && t.parcels == s.parcels && t.queues == s.queues
    ensures ItemsRendered(t, done + [l])
  {
    forall w, x | ItemAt(t, w, x) ensures Evaluate(x.handler, Some(x.content)) in done {
      assert ItemAt(s, w, x);
    }
  }

  lemma ItemsStep(s: State, done: seq<Label>, l: Label, t: State)
    requires ItemsRendered(s, done) && Explained(s, done) && Step(s, l) == Some(t)
    ensures ItemsRendered(t, done + [l])
  {
    match CallOf(s, l)
    case Some(c) =>
      if c.route == "" {
        NamelessCall(s, l, t, c);
        ItemsUntouched(s, done, l, t);
      } else {
        ItemsAfterCall(s, done, l, t, c);
      }
    case None =>
      if l.Evaluate? {
        ItemsAfterEvaluate(s, done, l, t);
      } else {
        QuietStep(s, l, t);
        ItemsUntouched(s, done, l, t);
      }
  }

  // ---------- Nothing rendered is lost ----------

  /** A handler whose message is not to be aggregated. */
  predicate SendsAlone(task: Task) {
    !(task.aggregationSupported && (task.number > 0 || task.timeout > 0))
  }

  /** A message goes out alone, or into the queue of a route with a name unless it has no properties. */
  predicate Ships(task: Task, content: Scan) {
    SendsAlone(task) || (task.route != "" && |content| > 0)
  }

  ghost predicate Placed(s: State, x: Item) {
    exists w :: ItemAt(s, w, x)
  }

  /** Its parcel of one, and where that is. */
  ghost predicate AloneInParcel(s: State, a: nat, content: Scan) {
    && a in s.actors && s.actors[a].Handler?
    && exists p: nat ::
      && p < |s.parcels|
      && s.parcels[p] == Parcel(s.actors[a].task.route, s.actors[a].task.output, false, [Item(a, content)])
      && (s.actors[a].phase == Sending(p) || (s.actors[a].phase == Finished(Delivered) && p in s.sent))
  }

  ghost predicate AllPlaced(s: State, done: seq<Label>) {
    forall a, content | Evaluate(a, Some(content)) in done && PastHandler(s, a) ::
      && (Ships(s.actors[a].task, content) ==> Placed(s, Item(a, content)))
      && (SendsAlone(s.actors[a].task) ==> AloneInParcel(s, a, content))
  }

  /** Once placed, a message stays somewhere. */
  lemma StaysPlaced(s: State, l: Label, t: State, x: Item)
    requires Step(s, l) == Some(t) && Placed(s, x)
    ensures Placed(t, x)
  {
    var w :| ItemAt(s, w, x);
    match CallOf(s, l)
    case Some(c) =>
      if c.route == "" {
        NamelessCall(s, l, t, c);
        assert ItemAt(t, w, x);
      } else {
        PlacedAfterCall(s, l, t, c, w, x);
      }
    case None =>
      if l.Evaluate? { assert t == EvaluateStep(s, l.a, l.result); } else { QuietStep(s, l, t); }
      assert ItemAt(t, w, x);
  }

  lemma PlacedAfterCall(s: State, l: Label, t: State, c: Call<Item>, w: Place, x: Item)
    requires Step(s, l) == Some(t) && CallOf(s, l) == Some(c) && c.route != "" && ItemAt(s, w, x)
    ensures Placed(t, x)
  {
    CallMoves(s, l, t, c);
    var n := |List(c.scan)|;
    if w.InQueue? && w.route == c.route {
      var all := List(c.scan) + QueueOf(s.queues, c.route);
      assert all[n + w.index] == x;
      if QueueOf(t.queues, c.route) == all {
        assert ItemAt(t, InQueue(c.route, n + w.index), x);
      } else {
        assert ItemAt(t, InParcel(|s.parcels|, n + w.index), x);
      }
    } else {
      assert ItemAt(t, w, x);
    }
  }

  /** The message a handler enqueues is placed by that. */
  lemma EnqueuedIsPlaced(s: State, a: nat, t: State)
    requires Step(s, Enqueue(a)) == Some(t) && s.actors[a].task.route != "" && |s.actors[a].phase.content| > 0
    ensures Placed(t, Item(a, s.actors[a].phase.content))
  {
    var l, x := Enqueue(a), Item(a, s.actors[a].phase.content);
    var c := EnqueueCall(a, s.actors[a].task, s.actors[a].phase.content);
    CallMoves(s, l, t, c);
    assert (List(c.scan) + QueueOf(s.queues, c.route))[0] == x;
    assert ItemAt(t, InQueue(c.route, 0), x) || ItemAt(t, InParcel(|s.parcels|, 0), x);
  }

  /** The parcel of a lone message stays with its handler until it is sent. */
  lemma StaysAlone(s: State, l: Label, t: State, a: nat, content: Scan)
    requires Step(s, l) == Some(t) && PastHandler(s, a) && AloneInParcel(s, a, content)
    ensures AloneInParcel(t, a, content)
  {
    var p: nat :| p < |s.parcels|
                  && s.parcels[p] == Parcel(s.actors[a].task.route, s.actors[a].task.output, false, [Item(a, content)])
                  && (s.actors[a].phase == Sending(p) || (s.actors[a].phase == Finished(Delivered) && p in s.sent));
    ParcelsAndSent(s, l, t);
    NeverBack(s, l, t, a);
    if HandlerLabel(l) {
      HandlerMoves(s, l, t);
      if l.a == a {
        assert l == Send(a);
        SentBySend(s, a, t);
      }
    } else {
      HandlerStays(s, l, t, a);
    }
    assert t.parcels[p] == s.parcels[p];
    assert t.actors[a].phase == Sending(p) || (t.actors[a].phase == Finished(Delivered) && p in t.sent);
  }

  lemma SentBySend(s: State, a: nat, t: State)
    requires Step(s, Send(a)) == Some(t)
    ensures s.actors[a].phase.parcel in t.sent
  {
  }

  lemma ParcelsAndSent(s: State, l: Label, t: State)
    requires Step(s, l) == Some(t)
    ensures |s.parcels| <= |t.parcels| && t.parcels[..|s.parcels|] == s.parcels
    ensures forall p | p in s.sent :: p in t.sent
    ensures forall p: nat | p < |s.parcels| :: t.parcels[p] == s.parcels[p]
  {
    match l
    case Dedup(a, message, key, expired) => DedupShape(s, a, message, key, expired, t);
    case Evaluate(_, _) => EvaluateEffect(s, l, t);
    case Enqueue(a) => EnqueueEffect(s, a, t);
    case Tick(_) => SchedulerParcels(s, l, t);
    case Deliver(_) => SchedulerParcels(s, l, t);
    case Exit(_) => SchedulerParcels(s, l, t);
    case Arrive(_, _) =>
    case Stop(_) =>
    case Clean(_) =>
    case Build(_, _) => SendParcels(s, l, t);
    case Send(_) => SendParcels(s, l, t);
    case _ => MoveParcels(s, l, t);
  }

  lemma SchedulerParcels(s: State, l: Label, t: State)
    requires SchedulerStep(s, l) == Some(t)
    ensures |s.parcels| <= |t.parcels| && t.parcels[..|s.parcels|] == s.parcels
    ensures forall p | p in s.sent :: p in t.sent
  {
  }

  lemma SendParcels(s: State, l: Label, t: State)
    requires (l.Build? || l.Send?) && HandlerStep(s, l) == Some(t)
    ensures t.parcels == s.parcels
    ensures forall p | p in s.sent :: p in t.sent
  {
  }

  lemma MoveParcels(s: State, l: Label, t: State)
    requires (l.Filter? || l.Check? || l.Start? || l.Launch?) && HandlerStep(s, l) == Some(t)
    ensures t.parcels == s.parcels && t.sent == s.sent
  {
  }

  lemma PlacedStep(s: State, done: seq<Label>, l: Label, t: State)
    requires AllPlaced(s, done) && Explained(s, done) && EvaluatedOnce(s, done) && Step(s, l) == Some(t)
    ensures AllPlaced(t, done + [l])
  {
    forall a, content | Evaluate(a, Some(content)) in done + [l] && PastHandler(t, a)
      ensures Ships(t.actors[a].task, content) ==> Placed(t, Item(a, content))
      ensures SendsAlone(t.actors[a].task) ==> AloneInParcel(t, a, content)
    {
      assert Evaluate(a, Some(content)) in done || l == Evaluate(a, Some(content));
      if l == Evaluate(a, Some(content)) {
        EvaluatedIsPlaced(s, l, t);
      } else {
        NeverBack(s, l, t, a);
        if PastHandler(s, a) {
          if Ships(s.actors[a].task, content) { StaysPlaced(s, l, t, Item(a, content)); }
          if SendsAlone(s.actors[a].task) { StaysAlone(s, l, t, a, content); }
        } else {
          BecomesPast(s, done, l, t, a, content);
        }
      }
    }
  }

  lemma EvaluatedIsPlaced(s: State, l: Label, t: State)
    requires Step(s, l) == Some(t) && l.Evaluate? && l.result.Some? && PastHandler(t, l.a)
    ensures Placed(t, Item(l.a, l.result.value)) && AloneInParcel(t, l.a, l.result.value)
  {
    assert t == EvaluateStep(s, l.a, l.result);
    assert ItemAt(t, InParcel(|s.parcels|, 0), Item(l.a, l.result.value));
    assert t.parcels[|s.parcels|]
        == Parcel(t.actors[l.a].task.route, t.actors[l.a].task.output, false, [Item(l.a, l.result.value)]);
  }

  /** A rendered message that was not placed yet is placed by the step that takes its handler on. */
  lemma BecomesPast(s: State, done: seq<Label>, l: Label, t: State, a: nat, content: Scan)
    requires Explained(s, done) && EvaluatedOnce(s, done) && Step(s, l) == Some(t)
    requires Evaluate(a, Some(content)) in done && !PastHandler(s, a) && PastHandler(t, a)
    ensures Ships(t.actors[a].task, content) ==> Placed(t, Item(a, content))
    ensures !SendsAlone(t.actors[a].task)
  {
    if HandlerLabel(l) {
      HandlerMoves(s, l, t);
    } else {
      HandlerStays(s, l, t, a);
    }
    assert l == Enqueue(a);
    assert Explains(done, a, s.actors[a].task, s.actors[a].phase);
    assert s.actors[a].phase.content == content;
    if t.actors[a].task.route != "" && |content| > 0 {
      EnqueuedIsPlaced(s, a, t);
    }
  }

  // ---------- Whole runs ----------

  ghost predicate Accounted(s: State, done: seq<Label>) {
    Explained(s, done) && EvaluatedOnce(s, done) && ItemsRendered(s, done) && AllPlaced(s, done)
  }

  lemma {:induction false} AlwaysAccounted(s: State, done: seq<Label>, labels: seq<Label>, t: State)
    requires Accounted(s, done) && Run(s, labels) == Some(t)
    ensures Accounted(t, done + labels)
    decreases |labels|
  {
    if labels == [] {
      assert done + labels == done;
    } else {
      var u := Step(s, labels[0]).value;
      ExplainedStep(s, done, labels[0], u);
      EvaluatedStep(s, done, labels[0], u);
      ItemsStep(s, done, labels[0], u);
      PlacedStep(s, done, labels[0], u);
      AlwaysAccounted(u, done + [labels[0]], labels[1..], t);
      assert done + [labels[0]] + labels[1..] == done + labels;
    }
  }

  lemma RunAccounted(labels: seq<Label>, s: State)
    requires Run(INITIAL, labels) == Some(s)
    ensures Accounted(s, labels)
  {
    assert Accounted(INITIAL, []);
    AlwaysAccounted(INITIAL, [], labels, s);
    assert [] + labels == labels;
  }

  /** What waits or travels is what was rendered: in every run, every message in a queue or a
      parcel has the content that the evaluation of its handler gave. */
  lemma MessagesAreRendered(labels: seq<Label>, s: State, w: Place, x: Item)
    requires Run(INITIAL, labels) == Some(s) && ItemAt(s, w, x)
    ensures Evaluate(x.handler, Some(x.content)) in labels
    ensures forall r | Evaluate(x.handler, r) in labels :: r == Some(x.content)
  {
    RunAccounted(labels, s);
  }

  /** And nothing rendered is lost: once its handler is past the aggregator, a message is in
      exactly one queue or parcel, unless it was to be queued without a route name or properties. */
  lemma RenderedHasOnePlace(labels: seq<Label>, s: State, a: nat, content: Scan) returns (w: Place)
    requires Run(INITIAL, labels) == Some(s) && Evaluate(a, Some(content)) in labels && PastHandler(s, a)
    requires Ships(s.actors[a].task, content)
    ensures ItemAt(s, w, Item(a, content)) && forall v | IsAt(s, v, a) :: v == w
  {
    RunAccounted(labels, s);
    w :| ItemAt(s, w, Item(a, content));
    assert IsAt(s, w, a);
    forall v | IsAt(s, v, a) ensures v == w {
      MessageAtOnePlace(labels, s, v, w, a);
    }
  }

  /** Without aggregation a handler sends exactly the one message its evaluation rendered, alone
      and to its own output. */
  lemma DirectSendsWhatWasRendered(labels: seq<Label>, s: State, a: nat, content: Scan) returns (p: nat)
    requires Run(INITIAL, labels) == Some(s) && Evaluate(a, Some(content)) in labels
    requires a in s.actors && s.actors[a].Handler?
    requires !(s.actors[a].task.aggregationSupported && (s.actors[a].task.number > 0 || s.actors[a].task.timeout > 0))
    ensures p < |s.parcels|
    ensures s.parcels[p] == Parcel(s.actors[a].task.route, s.actors[a].task.output, false, [Item(a, content)])
    ensures s.actors[a].phase == Sending(p) || (s.actors[a].phase == Finished(Delivered) && p in s.sent)
  {
    RunAccounted(labels, s);
    assert Explains(labels, a, s.actors[a].task, s.actors[a].phase);
    p :| p < |s.parcels|
         && s.parcels[p] == Parcel(s.actors[a].task.route, s.actors[a].task.output, false, [Item(a, content)])
         && (s.actors[a].phase == Sending(p) || (s.actors[a].phase == Finished(Delivered) && p in s.sent));
  }

  /** How every handler got where it is: which of its own steps account for its phase. */
  lemma PhasesAreExplained(labels: seq<Label>, s: State, a: nat)
    requires Run(INITIAL, labels) == Some(s) && a in s.actors && s.actors[a].Handler?
    ensures Explains(labels, a, s.actors[a].task, s.actors[a].phase)
  {
    RunAccounted(labels, s);
  }

  // ---------- Counting sends ----------

  function Sends(labels: seq<Label>): nat {
    if labels == [] then 0 else (if labels[0].Send? || labels[0].Deliver? then 1 else 0) + Sends(labels[1..])
  }

  function FailedBuilds(labels: seq<Label>): nat {
    if labels == [] then 0 else (if labels[0].Build? && !labels[0].ok then 1 else 0) + FailedBuilds(labels[1..])
  }

  lemma SchedulerCounts(s: State, l: Label, t: State)
    requires SchedulerStep(s, l) == Some(t)
    ensures |t.sent| == |s.sent| + (if l.Deliver? then 1 else 0) && t.dropped == s.dropped
  {
  }

  lemma HandlerCounts(s: State, l: Label, t: State)
    requires (l.Build? || l.Send?) && HandlerStep(s, l) == Some(t)
    ensures |t.sent| == |s.sent| + (if l.Send? then 1 else 0)
    ensures |t.dropped| == |s.dropped| + (if l.Build? && !l.ok then 1 else 0)
  {
  }

  lemma MoveCounts(s: State, l: Label, t: State)
    requires (l.Filter? || l.Check? || l.Start? || l.Launch?) && HandlerStep(s, l) == Some(t)
    ensures t.sent == s.sent && t.dropped == s.dropped
  {
  }

  lemma StepCounts(s: State, l: Label, t: State)
    requires Step(s, l) == Some(t)
    ensures |t.sent| == |s.sent| + (if l.Send? || l.Deliver? then 1 else 0)
    ensures |t.dropped| == |s.dropped| + (if l.Build? && !l.ok then 1 else 0)
  {
    match l
    case Dedup(a, message, key, expired) => DedupShape(s, a, message, key, expired, t);
    case Evaluate(_, _) => EvaluateEffect(s, l, t);
    case Enqueue(a) => EnqueueEffect(s, a, t);
    case Tick(_) => SchedulerCounts(s, l, t);
    case Deliver(_) => SchedulerCounts(s, l, t);
    case Exit(_) => SchedulerCounts(s, l, t);
    case Build(_, _) => HandlerCounts(s, l, t);
    case Send(_) => HandlerCounts(s, l, t);
    case Arrive(_, _) =>
    case Stop(_) =>
    case Clean(_) =>
    case _ => MoveCounts(s, l, t);
  }

  /** Every send sends one parcel, and only a batch whose content cannot be built is given up. */
  lemma {:induction false} SendsAreCounted(s: State, labels: seq<Label>, t: State)
    requires Run(s, labels) == Some(t)
    ensures |t.sent| == |s.sent| + Sends(labels) && |t.dropped| == |s.dropped| + FailedBuilds(labels)
    decreases |labels|
  {
    if labels != [] {
      var u := Step(s, labels[0]).value;
      StepCounts(s, labels[0], u);
      SendsAreCounted(u, labels[1..], t);
    }
  }
}
