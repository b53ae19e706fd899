/** Which output a message leaves through. A route has one queue and one scheduler for all its
    outputs; a batch goes to the output of the goroutine that released it. */
module PipelineOutputs {
  import opened Wrappers
  import opened Aggregator
  import opened Pipeline
  import opened PipelineSafety
  import opened PipelineDelivery
  import PipelineSchedulers

  predicate HandlerOn(s: State, h: nat, route: string) {
    h in s.actors && s.actors[h].Handler? && s.actors[h].task.route == route
  }

  /** Some handling of the route was for this output. */
  ghost predicate Offers(s: State, route: string, output: string) {
    exists a :: HandlerOn(s, a, route) && s.actors[a].task.output == output
  }

  /** The route whose queue or parcel a place is in. */
  function RouteAt(s: State, w: Place): string {
    match w
    case InParcel(p, _) => if p < |s.parcels| then s.parcels[p].route else ""
    case InQueue(r, _) => r
  }

  /** Outputs come from the route's own handlers, and so do messages. */
  ghost predicate OutputsOwned(s: State) {
    && (forall g | g in s.actors && s.actors[g].Scheduler? :: Offers(s, s.actors[g].route, s.actors[g].output))
    && (forall p: nat | p < |s.parcels| :: Offers(s, s.parcels[p].route, s.parcels[p].output))
    && (forall w, h | IsAt(s, w, h) :: HandlerOn(s, h, RouteAt(s, w)))
  }

  predicate TasksKept(s: State, t: State) {
    forall a | a in s.actors && s.actors[a].Handler? ::
      a in t.actors && t.actors[a].Handler? && t.actors[a].task == s.actors[a].task
  }

  lemma TasksStay(s: State, l: Label, t: State)
    requires Step(s, l) == Some(t)
    ensures TasksKept(s, t)
  {
    if l.Dedup? {
      DedupShape(s, l.a, l.message, l.key, l.expired, t);
    } else {
      ActorsAfterStep(s, l, t);
    }
  }

  lemma OfferStays(s: State, t: State, route: string, output: string)
    requires TasksKept(s, t) && Offers(s, route, output)
    ensures Offers(t, route, output)
  {
    var a :| HandlerOn(s, a, route) && s.actors[a].task.output == output;
    assert HandlerOn(t, a, route);
  }

  /** A new scheduler takes the output of the handler that launches it. */
  lemma LaunchedOutput(s: State, l: Label, t: State, g: nat)
    requires Step(s, l) == Some(t) && g in t.actors && t.actors[g].Scheduler? && g !in s.actors
    ensures l.Launch? && HandlerOn(s, l.a, t.actors[g].route) && s.actors[l.a].task.output == t.actors[g].output
  {
    match l
    case Dedup(a, message, key, expired) => DedupShape(s, a, message, key, expired, t);
    case Enqueue(a) => EnqueueShape(s, a, t);
    case Evaluate(_, _) => NoNewEvaluated(s, l, t);
    case Tick(_) => NoNewActors(s, l, t);
    case Deliver(_) => NoNewActors(s, l, t);
    case Exit(_) => NoNewActors(s, l, t);
    case Arrive(_, _) =>
    case Stop(_) =>
    case Clean(_) =>
    case Launch(_, _) =>
    case _ => NoNewHandlers(s, l, t);
  }

  lemma NoNewActors(s: State, l: Label, t: State)
    requires SchedulerStep(s, l) == Some(t)
    ensures t.actors.Keys == s.actors.Keys
  {
  }

  lemma NoNewEvaluated(s: State, l: Label, t: State)
    requires l.Evaluate? && HandlerStep(s, l) == Some(t)
    ensures t.actors.Keys == s.actors.Keys
  {
    assert t == EvaluateStep(s, l.a, l.result);
  }

  lemma NoNewHandlers(s: State, l: Label, t: State)
    requires (l.Filter? || l.Build? || l.Check? || l.Start? || l.Send?) && HandlerStep(s, l) == Some(t)
    ensures t.actors.Keys == s.actors.Keys
  {
  }

  lemma SchedulersOffered(s: State, l: Label, t: State, g: nat)
    requires OutputsOwned(s) && Step(s, l) == Some(t) && g in t.actors && t.actors[g].Scheduler?
    ensures Offers(t, t.actors[g].route, t.actors[g].output)
  {
    TasksStay(s, l, t);
    if g in s.actors {
      if s.actors[g].Scheduler? {
        if l.Dedup? { DedupShape(s, l.a, l.message, l.key, l.expired, t); } else { ActorsAfterStep(s, l, t); }
        OfferStays(s, t, s.actors[g].route, s.actors[g].output);
      } else {
        OnlyNewSchedulers(s, l, t, g);
      }
    } else {
      LaunchedOutput(s, l, t, g);
      assert HandlerOn(t, l.a, t.actors[g].route);
    }
  }

  lemma OnlyNewSchedulers(s: State, l: Label, t: State, g: nat)
    requires Step(s, l) == Some(t) && g in s.actors && !s.actors[g].Scheduler? && g in t.actors
    ensures !t.actors[g].Scheduler?
  {
    if l.Dedup? {
      DedupShape(s, l.a, l.message, l.key, l.expired, t);
    } else {
      ActorsAfterStep(s, l, t);
    }
  }

  // ---------- Parcels ----------

  lemma CallerOffered(s: State, l: Label, c: Call<Item>, t: State)
    requires OutputsOwned(s) && Step(s, l) == Some(t) && CallOf(s, l) == Some(c)
    ensures Offers(s, c.route, CallerOutput(s, l))
  {
    if l.Enqueue? {
      assert HandlerOn(s, l.a, c.route);
    }
  }

  lemma PlacesAfterCall(s: State, l: Label, t: State, c: Call<Item>, w: Place, h: nat)
    requires OutputsOwned(s) && Step(s, l) == Some(t) && CallOf(s, l) == Some(c) && c.route != "" && IsAt(t, w, h)
    ensures HandlerOn(t, h, RouteAt(t, w))
  {
    CallMoves(s, l, t, c);
    CameFrom(s, t, c, CallerOutput(s, l), w, h);
    TasksStay(s, l, t);
    match Before(s, c, w)
    case Some(v) => assert HandlerOn(s, h, RouteAt(s, v));
    case None =>
      EnqueuerIsNew(s, l, t, c);
      assert HandlerOn(s, l.a, c.route);
  }

  lemma OwnedAfterCall(s: State, l: Label, t: State, c: Call<Item>)
    requires OutputsOwned(s) && Step(s, l) == Some(t) && CallOf(s, l) == Some(c) && c.route != ""
    ensures OutputsOwned(t)
  {
    CallMoves(s, l, t, c);
    TasksStay(s, l, t);
    CallerOffered(s, l, c, t);
    forall p: nat | p < |t.parcels| ensures Offers(t, t.parcels[p].route, t.parcels[p].output) {
      OfferStays(s, t, t.parcels[p].route, t.parcels[p].output);
    }
    forall g | g in t.actors && t.actors[g].Scheduler? ensures Offers(t, t.actors[g].route, t.actors[g].output) {
      SchedulersOffered(s, l, t, g);
    }
    forall w, h | IsAt(t, w, h) ensures HandlerOn(t, h, RouteAt(t, w)) {
      PlacesAfterCall(s, l, t, c, w, h);
    }
  }

  lemma OwnedAfterEvaluate(s: State, l: Label, t: State)
    requires OutputsOwned(s) && l.Evaluate? && Step(s, l) == Some(t)
    ensures OutputsOwned(t)
  {
    assert t == EvaluateStep(s, l.a, l.result);
    TasksStay(s, l, t);
    assert HandlerOn(s, l.a, s.actors[l.a].task.route);
    forall p: nat | p < |t.parcels| ensures Offers(t, t.parcels[p].route, t.parcels[p].output) {
      assert p == |s.parcels| ==> Offers(s, t.parcels[p].route, t.parcels[p].output);
      OfferStays(s, t, t.parcels[p].route, t.parcels[p].output);
    }
    forall g | g in t.actors && t.actors[g].Scheduler? ensures Offers(t, t.actors[g].route, t.actors[g].output) {
      SchedulersOffered(s, l, t, g);
    }
    forall w, h | IsAt(t, w, h) ensures HandlerOn(t, h, RouteAt(t, w)) {
      assert IsAt(s, w, h) || (h == l.a && w == InParcel(|s.parcels|, 0));
    }
  }

  lemma OwnedOtherwise(s: State, l: Label, t: State)
    requires OutputsOwned(s) && Step(s, l) == Some(t) && t.parcels == s.parcels && t.queues == s.queues
    ensures OutputsOwned(t)
  {
    TasksStay(s, l, t);
    forall p: nat | p < |t.parcels| ensures Offers(t, t.parcels[p].route, t.parcels[p].output) {
      OfferStays(s, t, t.parcels[p].route, t.parcels[p].output);
    }
    forall g | g in t.actors && t.actors[g].Scheduler? ensures Offers(t, t.actors[g].route, t.actors[g].output) {
      SchedulersOffered(s, l, t, g);
    }
    forall w, h | IsAt(t, w, h) ensures HandlerOn(t, h, RouteAt(t, w)) {
      assert IsAt(s, w, h);
    }
  }

  lemma OutputsStep(s: State, l: Label, t: State)
    requires OutputsOwned(s) && Step(s, l) == Some(t)
    ensures OutputsOwned(t)
  {
    match CallOf(s, l)
    case Some(c) =>
      if c.route == "" {
        NamelessCall(s, l, t, c);
        OwnedOtherwise(s, l, t);
      } else {
        OwnedAfterCall(s, l, t, c);
      }
    case None =>
      if l.Evaluate? {
        OwnedAfterEvaluate(s, l, t);
      } else {
        QuietStep(s, l, t);
        OwnedOtherwise(s, l, t);
      }
  }

  lemma {:induction false} AlwaysOwned(s: State, labels: seq<Label>, t: State)
    requires OutputsOwned(s) && Run(s, labels) == Some(t)
    ensures OutputsOwned(t)
    decreases |labels|
  {
    if labels != [] {
      var u := Step(s, labels[0]).value;
      OutputsStep(s, labels[0], u);
      AlwaysOwned(u, labels[1..], t);
    }
  }

  // ---------- Main results ----------

  /** Message `i` of the parcel was handled for another output than the one the parcel goes to. */
  predicate Foreign(s: State, p: nat, i: nat) {
    && p < |s.parcels| && i < |s.parcels[p].items|
    && s.parcels[p].items[i].handler in s.actors && s.actors[s.parcels[p].items[i].handler].Handler?
    && s.actors[s.parcels[p].items[i].handler].task.output != s.parcels[p].output
  }

  /** A message waits on the route that was handled for another output. */
  predicate ForeignPending(s: State, route: string, output: string, k: nat) {
    var queue := QueueOf(s.queues, route);
    && k < |queue| && queue[k].handler in s.actors && s.actors[queue[k].handler].Handler?
    && s.actors[queue[k].handler].task.output != output
  }

  /** In every reachable state: on a route that is handled for one output only, every message
      leaves through it. */
  lemma OneOutputKeepsItsMessages(labels: seq<Label>, s: State, route: string, output: string, p: nat)
    requires Run(INITIAL, labels) == Some(s) && p < |s.parcels| && s.parcels[p].route == route
    requires forall a | HandlerOn(s, a, route) :: s.actors[a].task.output == output
    ensures s.parcels[p].output == output && forall i :: !Foreign(s, p, i)
  {
    AlwaysOwned(INITIAL, labels, s);
    var a :| HandlerOn(s, a, route) && s.actors[a].task.output == s.parcels[p].output;
    forall i: nat | i < |s.parcels[p].items| ensures HandlerOn(s, s.parcels[p].items[i].handler, route) {
      assert IsAt(s, InParcel(p, i), s.parcels[p].items[i].handler);
    }
  }

  /** In every reachable state: a step that ships a batch sends messages to an output they were
      not handled for if and only if such a message was waiting in the queue. */
  lemma ForeignShippedExactly(labels: seq<Label>, s: State, l: Label, t: State)
    requires Run(INITIAL, labels) == Some(s) && Step(s, l) == Some(t)
    requires |t.parcels| == |s.parcels| + 1 && t.parcels[|s.parcels|].fromQueue
    ensures var parcel := t.parcels[|s.parcels|];
            (exists i :: Foreign(t, |s.parcels|, i)) <==> exists k :: ForeignPending(s, parcel.route, parcel.output, k)
  {
    var c := ShippingCall(s, l, t);
    var parcel := t.parcels[|s.parcels|];
    var n := |List(c.scan)|;
    AlwaysOwned(INITIAL, labels, s);
    if i: nat :| Foreign(t, |s.parcels|, i) {
      OwnScanIsNotForeign(s, l, t, c, i);
      ForeignWasPending(s, l, t, c, i - n);
    }
    if k: nat :| ForeignPending(s, c.route, parcel.output, k) {
      ForeignWasPending(s, l, t, c, k);
    }
  }

  lemma ForeignWasPending(s: State, l: Label, t: State, c: Call<Item>, k: nat)
    requires OutputsOwned(s) && Step(s, l) == Some(t) && k < |QueueOf(s.queues, c.route)|
    requires t.parcels == s.parcels
                          + [Parcel(c.route, CallerOutput(s, l), true, List(c.scan) + QueueOf(s.queues, c.route))]
    ensures Foreign(t, |s.parcels|, |List(c.scan)| + k) <==> ForeignPending(s, c.route, CallerOutput(s, l), k)
  {
    var queue := QueueOf(s.queues, c.route);
    TasksStay(s, l, t);
    assert IsAt(s, InQueue(c.route, k), queue[k].handler);
    assert t.parcels[|s.parcels|].items[|List(c.scan)| + k] == queue[k];
  }

  lemma ShippingCall(s: State, l: Label, t: State) returns (c: Call<Item>)
    requires Step(s, l) == Some(t) && |t.parcels| == |s.parcels| + 1 && t.parcels[|s.parcels|].fromQueue
    ensures CallOf(s, l) == Some(c) && c.route != ""
    ensures t.parcels == s.parcels
                         + [Parcel(c.route, CallerOutput(s, l), true, List(c.scan) + QueueOf(s.queues, c.route))]
  {
    match CallOf(s, l)
    case None =>
      NoCallEffect(s, l, t);
      assert false;
    case Some(call) =>
      c := call;
      if c.route == "" {
        NamelessCall(s, l, t, c);
        assert false;
      } else {
        CallMoves(s, l, t, c);
      }
  }

  lemma OwnScanIsNotForeign(s: State, l: Label, t: State, c: Call<Item>, i: nat)
    requires Step(s, l) == Some(t) && CallOf(s, l) == Some(c)
    requires t.parcels == s.parcels
                          + [Parcel(c.route, CallerOutput(s, l), true, List(c.scan) + QueueOf(s.queues, c.route))]
    requires Foreign(t, |s.parcels|, i)
    ensures i >= |List(c.scan)|
  {
    TasksStay(s, l, t);
    EnqueuerIsNew(s, l, t, c);
  }

  // ---------- A run in which it happens ----------

  function UpToEnqueue(a: nat, task: Task, message: string, key: string, content: Scan): seq<Label> {
    PipelineSchedulers.UpToEvaluation(a, task, message, key) + [Evaluate(a, Some(content)), Enqueue(a)]
  }

  lemma CollectsScan(s: State, a: nat, content: Scan) returns (t: State)
    requires InPhase(s, a, Evaluating) && s.actors[a].task.Mode().Count? && s.actors[a].task.route != ""
        && |content| > 0
    ensures Run(s, [Evaluate(a, Some(content)), Enqueue(a)]) == Some(t)
    ensures Collected(s, a, s.actors[a].task, content, t)
    ensures a in t.actors && t.actors[a].Handler? && t.actors[a].task == s.actors[a].task
    ensures t.actors == s.actors[a := t.actors[a]] && t.store == s.store
  {
    var u := EvaluateStep(s, a, Some(content));
    t := EnqueueStep(u, a).value;
    PipelineSchedulers.RunTwo(s, Evaluate(a, Some(content)), u, Enqueue(a));
    EnqueueEffect(u, a, t);
    EnqueueShape(u, a, t);
  }

  /** The scan waits, or completes a batch for this handler's output. */
  predicate Collected(s: State, a: nat, task: Task, content: Scan, t: State) {
    var all := [Item(a, content)] + QueueOf(s.queues, task.route);
    if |all| < task.number then QueueOf(t.queues, task.route) == all && t.parcels == s.parcels
    else QueueOf(t.queues, task.route) == [] && t.parcels == s.parcels + [Parcel(task.route, task.output, true, all)]
  }

  lemma EnqueuesScan(s: State, a: nat, task: Task, message: string, key: string, content: Scan) returns (t: State)
    requires a !in s.actors && task.Mode().Count? && task.route != "" && |content| > 0
    requires task.unique ==> key != "" && key !in s.store.messages
    ensures Run(s, UpToEnqueue(a, task, message, key, content)) == Some(t)
    ensures Collected(s, a, task, content, t)
    ensures a in t.actors && t.actors == s.actors[a := t.actors[a]] && t.actors[a].Handler? && t.actors[a].task == task
    ensures t.store.messages.Keys <= s.store.messages.Keys + {key}
  {
    var u := PipelineSchedulers.IsLetThrough(s, a, task, message, key);
    t := CollectsScan(u, a, content);
    PipelineSchedulers.RunAppend(s, PipelineSchedulers.UpToEvaluation(a, task, message, key), u,
                                 [Evaluate(a, Some(content)), Enqueue(a)]);
    assert u.actors[a := t.actors[a]] == s.actors[a := t.actors[a]];
  }

  /** From the start of the program: on a route that collects two messages, one is handled for
      one output and one for another, and both go to the second. */
  lemma TwoOutputsOneBatch(a: nat, b: nat, first: Task, second: Task, messages: (string, string),
                           keys: (string, string), contents: (Scan, Scan)) returns (s: State)
    requires a != b && first.Mode().Count? && second == first.(output := second.output) && first.output != second.output
    requires first.number == 2 && first.route != "" && |contents.0| > 0 && |contents.1| > 0
    requires first.unique ==> keys.0 != "" && keys.1 != "" && keys.0 != keys.1
    ensures Run(INITIAL, UpToEnqueue(a, first, messages.0, keys.0, contents.0)
                         + UpToEnqueue(b, second, messages.1, keys.1, contents.1))
         == Some(s)
    ensures s.parcels == [Parcel(first.route, second.output, true, [Item(b, contents.1), Item(a, contents.0)])]
    ensures Foreign(s, 0, 1)
  {
    var u := EnqueuesScan(INITIAL, a, first, messages.0, keys.0, contents.0);
    assert [Item(a, contents.0)] + QueueOf(INITIAL.queues, first.route) == [Item(a, contents.0)];
    s := EnqueuesScan(u, b, second, messages.1, keys.1, contents.1);
    PipelineSchedulers.RunAppend(INITIAL, UpToEnqueue(a, first, messages.0, keys.0, contents.0), u,
                                 UpToEnqueue(b, second, messages.1, keys.1, contents.1));
    assert [Item(b, contents.1)] + [Item(a, contents.0)] == [Item(b, contents.1), Item(a, contents.0)];
    assert s.actors[a] == u.actors[a];
  }
}
