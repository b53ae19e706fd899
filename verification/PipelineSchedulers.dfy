/** Schedulers under every interleaving: who will drain a queue, and which schedulers can
    still be stopped. */
module PipelineSchedulers {
  import opened Wrappers
  import opened Aggregator
  import opened Pipeline
  import opened PipelineSafety
  import Timestamps

  // ---------- Channels ----------

  predicate SchedulerOn(a: Actor, route: string) {
    a.Scheduler? && a.route == route
  }

  predicate LaunchingOn(a: Actor, route: string) {
    a.Handler? && a.phase.Launching? && a.task.route == route
  }

  /** This goroutine drains the route on every tick, on its current channel, or is just about to
      start one that does. */
  predicate Attends(s: State, x: Actor, route: string) {
    || (SchedulerOn(x, route) && route in s.scheduling && x.done == s.scheduling[route])
    || LaunchingOn(x, route)
  }

  ghost predicate Serving(s: State, route: string) {
    exists a :: a in s.actors && Attends(s, s.actors[a], route)
  }

  /** The route's current channel is closed. */
  predicate Stopped(s: State, route: string) {
    route in s.scheduling && s.scheduling[route] in s.closed
  }

  ghost predicate ChannelsOwned(s: State) {
    && (forall route | route in s.scheduling ::
          s.scheduling[route] < |s.channels| && s.channels[s.scheduling[route]] == route)
    && (forall a | a in s.actors && s.actors[a].Scheduler? ::
          s.actors[a].done < |s.channels| && s.channels[s.actors[a].done] == s.actors[a].route
          && s.actors[a].route in s.scheduling)
    && (forall c | c in s.closed :: c < |s.channels|)
    && (forall a | a in s.actors && s.actors[a].Handler? && s.actors[a].phase.Launching? ::
          s.actors[a].task.route in s.scheduling)
  }

  /** A route that has a channel is served until it is stopped. */
  ghost predicate ScheduledIsServed(s: State) {
    forall route | route in s.scheduling :: Serving(s, route) || Stopped(s, route)
  }

  /** Where a handler in timed mode can be once it has enqueued. */
  ghost predicate TimedOnTheirWay(s: State) {
    forall a | a in s.actors && s.actors[a].Handler? && s.actors[a].task.Mode().Timed? && Past(s.actors[a].phase) ::
      var phase := s.actors[a].phase;
      && phase in {Checking, Starting, Launching, Finished(Queued)}
      && (phase == Finished(Queued) ==> s.actors[a].task.route in s.scheduling)
  }

  ghost predicate SchedulingKept(s: State) {
    ChannelsOwned(s) && ScheduledIsServed(s) && TimedOnTheirWay(s)
  }

  /** A step of one goroutine that is neither a scheduler nor about to launch one, and that
      leaves the channels alone. */
  lemma SchedulingUntouched(s: State, t: State)
    requires SchedulingKept(s)
    requires t.scheduling == s.scheduling && t.channels == s.channels && t.closed == s.closed
    requires s.actors.Keys <= t.actors.Keys
    requires forall a | a in t.actors && a !in s.actors :: t.actors[a].Handler? && t.actors[a].phase.Filtering?
    requires forall a | a in s.actors ::
               var x, y := s.actors[a], t.actors[a];
               && (x.Scheduler? ==> y.Scheduler? && y.route == x.route && y.done == x.done)
               && (x.Exited? ==> y.Exited?)
               && (x.Handler? ==> y.Handler? && y.task == x.task)
               && (x.Handler? ==> x.phase.Launching? == y.phase.Launching?)
               && (x.Handler? && x.task.Mode().Timed? && Past(y.phase) ==>
                     && y.phase in {Checking, Starting, Launching, Finished(Queued)}
                     && (y.phase == Finished(Queued) ==> x.task.route in s.scheduling))
    ensures SchedulingKept(t)
  {
    forall route | route in t.scheduling ensures Serving(t, route) || Stopped(t, route) {
      if Serving(s, route) {
        var a :| a in s.actors && Attends(s, s.actors[a], route);
        assert Attends(t, t.actors[a], route);
      }
    }
  }

  lemma SchedulingStart(s: State, a: nat, t: State)
    requires SchedulingKept(s) && Step(s, Start(a)) == Some(t)
    ensures SchedulingKept(t)
  {
    var own := s.actors[a].task.route;
    forall route | route in t.scheduling ensures Serving(t, route) || Stopped(t, route) {
      if route == own {
        assert Attends(t, t.actors[a], route);
      } else if Serving(s, route) {
        var b :| b in s.actors && Attends(s, s.actors[b], route);
        assert Attends(t, t.actors[b], route);
      }
    }
  }

  lemma LaunchedIsServed(s: State, a: nat, g: nat, t: State)
    requires SchedulingKept(s) && Step(s, Launch(a, g)) == Some(t)
    ensures ScheduledIsServed(t)
  {
    forall route | route in t.scheduling ensures Serving(t, route) || Stopped(t, route) {
      if Serving(s, route) {
        var b :| b in s.actors && Attends(s, s.actors[b], route);
        if b == a {
          assert Attends(t, t.actors[g], route);
        } else {
          assert Attends(t, t.actors[b], route);
        }
      }
    }
  }

  lemma LaunchedOwnsChannel(s: State, a: nat, g: nat, t: State)
    requires SchedulingKept(s) && Step(s, Launch(a, g)) == Some(t)
    ensures ChannelsOwned(t)
  {
  }

  lemma LaunchedIsOnItsWay(s: State, a: nat, g: nat, t: State)
    requires SchedulingKept(s) && Step(s, Launch(a, g)) == Some(t)
    ensures TimedOnTheirWay(t)
  {
  }

  lemma SchedulingLaunch(s: State, a: nat, g: nat, t: State)
    requires SchedulingKept(s) && Step(s, Launch(a, g)) == Some(t)
    ensures SchedulingKept(t)
  {
    LaunchedIsServed(s, a, g, t);
    LaunchedOwnsChannel(s, a, g, t);
    LaunchedIsOnItsWay(s, a, g, t);
  }

  lemma SchedulingExit(s: State, g: nat, t: State)
    requires SchedulingKept(s) && Step(s, Exit(g)) == Some(t)
    ensures SchedulingKept(t)
  {
    forall route | route in t.scheduling ensures Serving(t, route) || Stopped(t, route) {
      if Serving(s, route) {
        var b :| b in s.actors && Attends(s, s.actors[b], route);
        assert b != g ==> Attends(t, t.actors[b], route);
      }
    }
  }

  lemma SchedulingStop(s: State, route: string, t: State)
    requires SchedulingKept(s) && Step(s, Stop(route)) == Some(t)
    ensures SchedulingKept(t)
  {
    forall r | r in t.scheduling ensures Serving(t, r) || Stopped(t, r) {
      if Serving(s, r) {
        var b :| b in s.actors && Attends(s, s.actors[b], r);
        assert Attends(t, t.actors[b], r);
      }
    }
  }

  lemma SchedulingDedup(s: State, l: Label, t: State)
    requires SchedulingKept(s) && l.Dedup? && Step(s, l) == Some(t)
    ensures SchedulingKept(t)
  {
    DedupShape(s, l.a, l.message, l.key, l.expired, t);
    SchedulingUntouched(s, t);
  }

  lemma SchedulingEnqueue(s: State, a: nat, t: State)
    requires SchedulingKept(s) && Step(s, Enqueue(a)) == Some(t)
    ensures SchedulingKept(t)
  {
    EnqueueShape(s, a, t);
    SchedulingUntouched(s, t);
  }

  lemma SchedulingFilter(s: State, l: Label, t: State)
    requires SchedulingKept(s) && l.Filter? && HandlerStep(s, l) == Some(t)
    ensures SchedulingKept(t)
  {
    SchedulingUntouched(s, t);
  }

  lemma SchedulingCheck(s: State, l: Label, t: State)
    requires SchedulingKept(s) && l.Check? && HandlerStep(s, l) == Some(t)
    ensures SchedulingKept(t)
  {
    SchedulingUntouched(s, t);
  }

  lemma SchedulingBuild(s: State, l: Label, t: State)
    requires SchedulingKept(s) && l.Build? && HandlerStep(s, l) == Some(t)
    ensures SchedulingKept(t)
  {
    SchedulingUntouched(s, t);
  }

  lemma SchedulingSend(s: State, l: Label, t: State)
    requires SchedulingKept(s) && l.Send? && HandlerStep(s, l) == Some(t)
    ensures SchedulingKept(t)
  {
    SchedulingUntouched(s, t);
  }

  lemma SchedulingEvaluate(s: State, l: Label, t: State)
    requires SchedulingKept(s) && l.Evaluate? && HandlerStep(s, l) == Some(t)
    ensures SchedulingKept(t)
  {
    assert t == EvaluateStep(s, l.a, l.result);
    SchedulingUntouched(s, t);
  }

  lemma SchedulingTick(s: State, l: Label, t: State)
    requires SchedulingKept(s) && (l.Tick? || l.Deliver?) && SchedulerStep(s, l) == Some(t)
    ensures SchedulingKept(t)
  {
    SchedulingUntouched(s, t);
  }

  lemma SchedulingStep(s: State, l: Label, t: State)
    requires SchedulingKept(s) && Step(s, l) == Some(t)
    ensures SchedulingKept(t)
  {
    match l
    case Start(a) => SchedulingStart(s, a, t);
    case Launch(a, g) => SchedulingLaunch(s, a, g, t);
    case Exit(g) => SchedulingExit(s, g, t);
    case Stop(route) => SchedulingStop(s, route, t);
    case Dedup(_, _, _, _) => SchedulingDedup(s, l, t);
    case Enqueue(a) => SchedulingEnqueue(s, a, t);
    case Evaluate(_, _) => SchedulingEvaluate(s, l, t);
    case Tick(_) => SchedulingTick(s, l, t);
    case Deliver(_) => SchedulingTick(s, l, t);
    case Arrive(_, _) => SchedulingUntouched(s, t);
    case Clean(_) => SchedulingUntouched(s, t);
    case Filter(_, _) => SchedulingFilter(s, l, t);
    case Check(_) => SchedulingCheck(s, l, t);
    case Build(_, _) => SchedulingBuild(s, l, t);
    case Send(_) => SchedulingSend(s, l, t);
  }

  lemma {:induction false} AlwaysScheduled(s: State, labels: seq<Label>, t: State)
    requires SchedulingKept(s) && Run(s, labels) == Some(t)
    ensures SchedulingKept(t)
    decreases |labels|
  {
    if labels != [] {
      SchedulingStep(s, labels[0], Step(s, labels[0]).value);
      AlwaysScheduled(Step(s, labels[0]).value, labels[1..], t);
    }
  }

  /** No scan is stranded. A message pending on a route in timed mode has a handler that is
      still on its way to the scheduler check, or a scheduler is running or being launched on
      the route's current channel, or that channel is closed. */
  lemma NoScanStranded(labels: seq<Label>, s: State, route: string, x: Item)
    requires Run(INITIAL, labels) == Some(s)
    requires x in QueueOf(s.queues, route)
    ensures x.handler in s.actors && s.actors[x.handler].Handler? && s.actors[x.handler].task.route == route
    ensures s.actors[x.handler].task.Mode().Timed? ==>
              || s.actors[x.handler].phase in {Checking, Starting}
              || Serving(s, route) || Stopped(s, route)
  {
    InitiallySafe();
    AlwaysSafe(INITIAL, labels, s);
    AlwaysScheduled(INITIAL, labels, s);
    EnqueuedExactlyOnce(labels, s, route, x);
    assert x in multiset(QueueOf(s.queues, route));
    var i :| 0 <= i < |Arrivals(s.calls, route)| && Arrivals(s.calls, route)[i] == x;
    assert Enqueuer(s, x.handler, route);
    if LaunchingOn(s.actors[x.handler], route) {
      assert Attends(s, s.actors[x.handler], route);
    }
  }

  // ---------- Schedulers that no stop can reach ----------

  /** The route has moved on to another channel, and this scheduler's was never closed. */
  predicate Superseded(s: State, g: nat) {
    && g in s.actors && s.actors[g].Scheduler? && s.actors[g].done !in s.closed
    && s.actors[g].route in s.scheduling && s.scheduling[s.actors[g].route] != s.actors[g].done
  }

  lemma ChannelsEffect(s: State, l: Label, t: State)
    requires Step(s, l) == Some(t) && !l.Start? && !l.Stop? && !l.Dedup?
    ensures t.scheduling == s.scheduling && t.channels == s.channels && t.closed == s.closed
  {
    match l
    case Evaluate(_, _) => EvaluateEffect(s, l, t);
    case Enqueue(a) => EnqueueEffect(s, a, t);
    case Tick(_) => SchedulerEffect(s, l, t);
    case Deliver(_) => SchedulerEffect(s, l, t);
    case Exit(_) => SchedulerEffect(s, l, t);
    case Arrive(_, _) =>
    case Clean(_) =>
    case _ => MoveEffect(s, l, t);
  }

  lemma SchedulersAfterScheduler(s: State, l: Label, t: State, g: nat)
    requires SchedulerStep(s, l) == Some(t) && l != Exit(g) && g in s.actors && s.actors[g].Scheduler?
    ensures g in t.actors && t.actors[g].Scheduler?
    ensures t.actors[g].route == s.actors[g].route && t.actors[g].done == s.actors[g].done
  {
  }

  lemma SchedulersAfterMove(s: State, l: Label, t: State, g: nat)
    requires (l.Filter? || l.Check? || l.Start? || l.Launch?) && HandlerStep(s, l) == Some(t)
    requires g in s.actors && s.actors[g].Scheduler?
    ensures g in t.actors && t.actors[g] == s.actors[g]
  {
  }

  lemma SchedulersAfterSend(s: State, l: Label, t: State, g: nat)
    requires (l.Build? || l.Send?) && HandlerStep(s, l) == Some(t)
    requires g in s.actors && s.actors[g].Scheduler?
    ensures g in t.actors && t.actors[g] == s.actors[g]
  {
  }

  /** A scheduler stays what it is in every step but its own exit. */
  lemma SchedulerStays(s: State, l: Label, t: State, g: nat)
    requires Step(s, l) == Some(t) && l != Exit(g) && g in s.actors && s.actors[g].Scheduler?
    ensures g in t.actors && t.actors[g].Scheduler?
    ensures t.actors[g].route == s.actors[g].route && t.actors[g].done == s.actors[g].done
  {
    match l
    case Dedup(a, message, key, expired) => DedupShape(s, a, message, key, expired, t);
    case Enqueue(a) => EnqueueShape(s, a, t);
    case Evaluate(a, result) => assert t == EvaluateStep(s, a, result);
    case Tick(_) => SchedulersAfterScheduler(s, l, t, g);
    case Deliver(_) => SchedulersAfterScheduler(s, l, t, g);
    case Exit(_) => SchedulersAfterScheduler(s, l, t, g);
    case Build(_, _) => SchedulersAfterSend(s, l, t, g);
    case Send(_) => SchedulersAfterSend(s, l, t, g);
    case Arrive(_, _) =>
    case Stop(_) =>
    case Clean(_) =>
    case _ => SchedulersAfterMove(s, l, t, g);
  }

  /** Only `Start` gives a route another channel, and only `Stop` closes one, the current. */
  lemma ChannelsAfterStep(s: State, l: Label, t: State, route: string)
    requires Step(s, l) == Some(t) && route in s.scheduling
    ensures route in t.scheduling
    ensures t.scheduling[route]
         == if l.Start? && s.actors[l.a].task.route == route then |s.channels| else s.scheduling[route]
    ensures forall c | c in t.closed && c !in s.closed ::
              l.Stop? && l.route in s.scheduling && c == s.scheduling[l.route]
    ensures s.closed <= t.closed
  {
    match l
    case Start(_) =>
    case Stop(_) =>
    case Dedup(_, _, _, _) => DedupShape(s, l.a, l.message, l.key, l.expired, t);
    case _ => ChannelsEffect(s, l, t);
  }

  /** Which step leaves a scheduler behind: exactly a start on its route while it runs on the
      current channel and that is open. */
  lemma SupersededStepExactly(s: State, l: Label, t: State, g: nat)
    requires SchedulingKept(s) && Step(s, l) == Some(t) && l != Exit(g) && g in s.actors && s.actors[g].Scheduler?
    ensures Superseded(t, g)
       <==> Superseded(s, g)
            || (l.Start? && s.actors[l.a].task.route == s.actors[g].route
                && s.scheduling[s.actors[g].route] == s.actors[g].done && s.actors[g].done !in s.closed)
  {
    SchedulerStays(s, l, t, g);
    ChannelsAfterStep(s, l, t, s.actors[g].route);
  }

  lemma ExitNeedsClosed(s: State, g: nat)
    requires Superseded(s, g)
    ensures Step(s, Exit(g)).None?
  {
  }

  lemma SupersededStep(s: State, l: Label, t: State, g: nat)
    requires SchedulingKept(s) && Superseded(s, g) && Step(s, l) == Some(t)
    ensures Superseded(t, g)
  {
    ExitNeedsClosed(s, g);
    SupersededStepExactly(s, l, t, g);
  }

  /** Such a scheduler goes on ticking for ever, whatever happens next: no stop closes its
      channel. */
  lemma {:induction false} SupersededNeverExits(s: State, labels: seq<Label>, t: State, g: nat)
    requires SchedulingKept(s) && Superseded(s, g) && Run(s, labels) == Some(t)
    ensures Superseded(t, g)
    ensures Step(t, Exit(g)).None?
    decreases |labels|
  {
    if labels != [] {
      var u := Step(s, labels[0]).value;
      SchedulingStep(s, labels[0], u);
      SupersededStep(s, labels[0], u, g);
      SupersededNeverExits(u, labels[1..], t, g);
    }
  }

  lemma RunOne(s: State, l: Label)
    requires Step(s, l).Some?
    ensures Run(s, [l]) == Step(s, l)
  {
    assert Run(Step(s, l).value, [l][1..]) == Step(s, l);
  }

  lemma StopThenExit(s: State, g: nat) returns (labels: seq<Label>, t: State)
    requires SchedulingKept(s) && g in s.actors && s.actors[g].Scheduler? && s.actors[g].batch.None?
        && !Superseded(s, g)
    ensures Run(s, labels) == Some(t) && Step(t, Exit(g)).Some?
  {
    if s.actors[g].done in s.closed {
      labels, t := [], s;
    } else {
      labels := [Stop(s.actors[g].route)];
      t := Step(s, labels[0]).value;
      RunOne(s, labels[0]);
    }
  }

  lemma DeliverFirst(s: State, g: nat) returns (t: State)
    requires SchedulingKept(s) && g in s.actors && s.actors[g].Scheduler? && s.actors[g].batch.Some?
        && !Superseded(s, g)
    ensures Step(s, Deliver(g)) == Some(t) && SchedulingKept(t)
    ensures g in t.actors && t.actors[g].Scheduler? && t.actors[g].batch.None? && !Superseded(t, g)
  {
    t := Step(s, Deliver(g)).value;
    SchedulingStep(s, Deliver(g), t);
    SupersededStepExactly(s, Deliver(g), t, g);
  }

  lemma OthersCanExit(s: State, g: nat) returns (labels: seq<Label>, t: State)
    requires SchedulingKept(s) && g in s.actors && s.actors[g].Scheduler? && !Superseded(s, g)
    ensures Run(s, labels) == Some(t) && Step(t, Exit(g)).Some?
  {
    if s.actors[g].batch.Some? {
      var u := DeliverFirst(s, g);
      var rest;
      rest, t := StopThenExit(u, g);
      labels := [Deliver(g)] + rest;
      assert labels[1..] == rest;
    } else {
      labels, t := StopThenExit(s, g);
    }
  }

  ghost predicate CanExit(s: State, g: nat) {
    exists labels: seq<Label>, t: State :: Run(s, labels) == Some(t) && Step(t, Exit(g)).Some?
  }

  /** In every reachable state a scheduler can be brought to its end in some continuation if
      and only if it is not superseded. */
  lemma CanExitExactly(labels: seq<Label>, s: State, g: nat)
    requires Run(INITIAL, labels) == Some(s) && g in s.actors && s.actors[g].Scheduler?
    ensures CanExit(s, g) <==> !Superseded(s, g)
  {
    AlwaysScheduled(INITIAL, labels, s);
    if Superseded(s, g) {
      forall more: seq<Label>, t: State | Run(s, more) == Some(t) ensures Step(t, Exit(g)).None? {
        SupersededNeverExits(s, more, t, g);
      }
    } else {
      var more, t := OthersCanExit(s, g);
    }
  }

  // ---------- Handlers that do not race ----------

  /** Whoever finds no scheduler starts one at once: nothing comes between the two steps. */
  ghost predicate Serial(s: State, labels: seq<Label>)
    requires Run(s, labels).Some?
    decreases |labels|
  {
    labels == []
    || ((FindsNone(s, labels[0]) ==> |labels| > 1 && labels[1] == Start(labels[0].a))
        && Serial(Step(s, labels[0]).value, labels[1..]))
  }

  ghost predicate FindsNone(s: State, l: Label) {
    l.Check? && Step(s, l).Some? && InPhase(Step(s, l).value, l.a, Starting)
  }

  /** No route ever had two channels, and nobody is about to make one. */
  ghost predicate OneChannelEach(s: State) {
    && (forall a | a in s.actors && s.actors[a].Handler? :: !s.actors[a].phase.Starting?)
    && (forall c: nat | c < |s.channels| :: s.channels[c] in s.scheduling && s.scheduling[s.channels[c]] == c)
  }

  lemma NobodyStarts(s: State, l: Label, t: State)
    requires Step(s, l) == Some(t) && !FindsNone(s, l)
    requires forall a | a in s.actors && s.actors[a].Handler? :: !s.actors[a].phase.Starting?
    ensures forall a | a in t.actors && t.actors[a].Handler? :: !t.actors[a].phase.Starting?
  {
    match l
    case Dedup(a, message, key, expired) => DedupShape(s, a, message, key, expired, t);
    case Enqueue(a) => EnqueueShape(s, a, t);
    case Evaluate(a, result) => assert t == EvaluateStep(s, a, result);
    case Tick(_) => SchedulerStartsNobody(s, l, t);
    case Deliver(_) => SchedulerStartsNobody(s, l, t);
    case Exit(_) => SchedulerStartsNobody(s, l, t);
    case Build(_, _) => SendStartsNobody(s, l, t);
    case Send(_) => SendStartsNobody(s, l, t);
    case Arrive(_, _) =>
    case Stop(_) =>
    case Clean(_) =>
    case _ => MoveStartsNobody(s, l, t);
  }

  lemma SchedulerStartsNobody(s: State, l: Label, t: State)
    requires SchedulerStep(s, l) == Some(t)
    ensures forall a | a in t.actors && t.actors[a].Handler? :: a in s.actors && t.actors[a] == s.actors[a]
  {
  }

  lemma SendStartsNobody(s: State, l: Label, t: State)
    requires (l.Build? || l.Send?) && HandlerStep(s, l) == Some(t)
    ensures forall a | a in t.actors && t.actors[a].Handler? ::
              a in s.actors && (t.actors[a] == s.actors[a] || !t.actors[a].phase.Starting?)
  {
  }

  lemma MoveStartsNobody(s: State, l: Label, t: State)
    requires (l.Filter? || l.Check? || l.Start? || l.Launch?) && HandlerStep(s, l) == Some(t) && !FindsNone(s, l)
    ensures forall a | a in t.actors && t.actors[a].Handler? ::
              a in s.actors && (t.actors[a] == s.actors[a] || !t.actors[a].phase.Starting?)
  {
  }

  /** A check that finds none, and the start it leads to, make the route's first channel. */
  lemma CheckAndStart(s: State, a: nat, t: State, u: State)
    requires OneChannelEach(s) && FindsNone(s, Check(a)) && Step(s, Check(a)) == Some(t) && Step(t, Start(a)) == Some(u)
    ensures OneChannelEach(u)
  {
    assert s.actors[a].task.route !in s.scheduling;
  }

  lemma ChannelsStay(s: State, l: Label, t: State)
    requires Step(s, l) == Some(t) && !l.Start?
    ensures t.channels == s.channels && t.scheduling == s.scheduling
  {
    match l
    case Dedup(_, _, _, _) => DedupShape(s, l.a, l.message, l.key, l.expired, t);
    case Stop(_) =>
    case _ => ChannelsEffect(s, l, t);
  }

  lemma {:induction false} SerialKeepsOneChannel(s: State, labels: seq<Label>, t: State)
    requires OneChannelEach(s) && Run(s, labels) == Some(t) && Serial(s, labels)
    ensures OneChannelEach(t)
    decreases |labels|
  {
    if labels != [] {
      var u := Step(s, labels[0]).value;
      if FindsNone(s, labels[0]) {
        var v := Step(u, labels[1]).value;
        assert labels[1..][0] == labels[1] && labels[1..][1..] == labels[2..];
        CheckAndStart(s, labels[0].a, u, v);
        SerialKeepsOneChannel(v, labels[2..], t);
      } else {
        NobodyStarts(s, labels[0], u);
        ChannelsStay(s, labels[0], u);
        SerialKeepsOneChannel(u, labels[1..], t);
      }
    }
  }

  /** As long as handlers do not race like that, a route never has a second channel, and every
      scheduler can be stopped. */
  lemma SerialHandlersLeaveNoneBehind(labels: seq<Label>, s: State)
    requires Run(INITIAL, labels) == Some(s) && Serial(INITIAL, labels)
    ensures forall c, d | 0 <= c < d < |s.channels| :: s.channels[c] != s.channels[d]
    ensures forall g | g in s.actors && s.actors[g].Scheduler? :: CanExit(s, g)
  {
    SerialKeepsOneChannel(INITIAL, labels, s);
    AlwaysScheduled(INITIAL, labels, s);
    forall g | g in s.actors && s.actors[g].Scheduler? ensures CanExit(s, g) {
      CanExitExactly(labels, s, g);
    }
  }

  // ---------- How schedulers are left behind ----------

  lemma {:induction false} RunAppend(s: State, first: seq<Label>, t: State, second: seq<Label>)
    requires Run(s, first) == Some(t)
    ensures Run(s, first + second) == Run(t, second)
    decreases |first|
  {
    if first == [] {
      assert first + second == second;
    } else {
      assert (first + second)[1..] == first[1..] + second;
      RunAppend(Step(s, first[0]).value, first[1..], t, second);
    }
  }

  lemma BothFindNone(s: State, a: nat, b: nat) returns (t: State)
    requires a != b && InPhase(s, a, Checking) && InPhase(s, b, Checking)
    requires s.actors[a].task.route !in s.scheduling && s.actors[b].task.route !in s.scheduling
    ensures Run(s, [Check(a), Check(b)]) == Some(t)
    ensures t == s.(actors := s.actors[a := s.actors[a].(phase := Starting)][b := s.actors[b].(phase := Starting)])
  {
    var u := Step(s, Check(a)).value;
    t := Step(u, Check(b)).value;
    assert [Check(a), Check(b)][1..] == [Check(b)];
    assert Run(u, [Check(b)]) == Run(t, []);
  }

  lemma StartAndLaunch(s: State, a: nat, g: nat) returns (t: State)
    requires InPhase(s, a, Starting) && g !in s.actors
    ensures Run(s, [Start(a), Launch(a, g)]) == Some(t)
    ensures var route := s.actors[a].task.route;
            t == s.(scheduling := s.scheduling[route := |s.channels|], channels := s.channels + [route],
                    actors := s.actors[a := s.actors[a].(phase := Finished(Queued))]
                                      [g := Scheduler(route, s.actors[a].task.output, |s.channels|, None)])
  {
    var u := Step(s, Start(a)).value;
    t := Step(u, Launch(a, g)).value;
    assert [Start(a), Launch(a, g)][1..] == [Launch(a, g)];
    assert Run(u, [Launch(a, g)]) == Run(t, []);
    assert s.actors[a := s.actors[a].(phase := Launching)][a := s.actors[a].(phase := Finished(Queued))]
        == s.actors[a := s.actors[a].(phase := Finished(Queued))];
  }

  /** Two handlers that both look before either starts leave one behind: the route ends up
      with two schedulers, and the first can never be stopped. */
  lemma RacingHandlersLeaveOneBehind(s: State, a: nat, b: nat, g: nat, h: nat) returns (t: State)
    requires SchedulingKept(s) && a != b && g != h && g !in s.actors && h !in s.actors
    requires InPhase(s, a, Checking) && InPhase(s, b, Checking)
    requires s.actors[a].task.route == s.actors[b].task.route && s.actors[a].task.route !in s.scheduling
    ensures Run(s, [Check(a), Check(b), Start(a), Launch(a, g), Start(b), Launch(b, h)]) == Some(t)
    ensures g in t.actors && SchedulerOn(t.actors[g], s.actors[a].task.route)
    ensures h in t.actors && SchedulerOn(t.actors[h], s.actors[a].task.route)
    ensures Superseded(t, g) && !Superseded(t, h)
  {
    var s2 := BothFindNone(s, a, b);
    var s4 := StartAndLaunch(s2, a, g);
    t := StartAndLaunch(s4, b, h);
    RunThree(s, [Check(a), Check(b)], s2, [Start(a), Launch(a, g)], s4, [Start(b), Launch(b, h)]);
    assert [Check(a), Check(b)] + [Start(a), Launch(a, g)] + [Start(b), Launch(b, h)]
        == [Check(a), Check(b), Start(a), Launch(a, g), Start(b), Launch(b, h)];
  }

  lemma RunThree(s: State, first: seq<Label>, t: State, second: seq<Label>, u: State, third: seq<Label>)
    requires Run(s, first) == Some(t) && Run(t, second) == Some(u)
    ensures Run(s, first + second + third) == Run(u, third)
  {
    RunAppend(s, first, t, second);
    RunAppend(s, first + second, u, third);
  }

  /** The way of one handler in timed mode to the scheduler check. */
  function UpToCheck(a: nat, task: Task, message: string, key: string, content: Scan): seq<Label> {
    UpToEvaluation(a, task, message, key) + [Evaluate(a, Some(content)), Enqueue(a)]
  }

  function UpToEvaluation(a: nat, task: Task, message: string, key: string): seq<Label> {
    [Arrive(a, task), Filter(a, true), Dedup(a, message, key, None)]
  }

  lemma RunTwo(s: State, first: Label, t: State, second: Label)
    requires Step(s, first) == Some(t) && Step(t, second).Some?
    ensures Run(s, [first, second]) == Step(t, second)
  {
    RunOne(s, first);
    RunOne(t, second);
    RunAppend(s, [first], t, [second]);
    assert [first] + [second] == [first, second];
  }

  lemma UpToLookUp(s: State, a: nat, task: Task) returns (t: State)
    requires a !in s.actors
    ensures Run(s, [Arrive(a, task), Filter(a, true)]) == Some(t)
    ensures t == s.(actors := s.actors[a := Handler(task, Deduping, None)])
  {
    var u := Step(s, Arrive(a, task)).value;
    t := Step(u, Filter(a, true)).value;
    RunTwo(s, Arrive(a, task), u, Filter(a, true));
    assert u.actors[a := Handler(task, Deduping, None)] == s.actors[a := Handler(task, Deduping, None)];
  }

  /** The look-up itself; a de-duplicating route lets the message through if its key is new. */
  lemma LooksUp(s: State, a: nat, message: string, key: string, expired: Option<Timestamps.Time>) returns (t: State)
    requires InPhase(s, a, Deduping)
    ensures Step(s, Dedup(a, message, key, expired)) == Some(t) && Run(s, [Dedup(a, message, key, expired)]) == Some(t)
    ensures a in t.actors && t.actors == s.actors[a := t.actors[a]] && t.actors[a].Handler?
        && t.actors[a].task == s.actors[a].task
    ensures t == s.(actors := t.actors, store := t.store, ops := t.ops)
    ensures !s.actors[a].task.unique ==> InPhase(t, a, Evaluating) && t.store == s.store
    ensures s.actors[a].task.unique && key != "" ==>
              && InPhase(t, a, if key in s.store.messages then Finished(Duplicate) else Evaluating)
              && t.store.messages.Keys == s.store.messages.Keys + {key}
  {
    t := DedupStep(s, a, message, key, expired);
    RunOne(s, Dedup(a, message, key, expired));
    DedupShape(s, a, message, key, expired, t);
    DedupStore(s, a, message, key, expired, t);
  }

  lemma ArrivesAndLooksUp(s: State, a: nat, task: Task, message: string, key: string,
                          expired: Option<Timestamps.Time>) returns (t: State)
    requires a !in s.actors
    ensures Run(s, [Arrive(a, task), Filter(a, true), Dedup(a, message, key, expired)]) == Some(t)
    ensures a in t.actors && t.actors == s.actors[a := t.actors[a]] && t.actors[a].Handler? && t.actors[a].task == task
    ensures t == s.(actors := t.actors, store := t.store, ops := t.ops)
    ensures !task.unique ==> InPhase(t, a, Evaluating) && t.store == s.store
    ensures task.unique && key != "" ==>
              && InPhase(t, a, if key in s.store.messages then Finished(Duplicate) else Evaluating)
              && t.store.messages.Keys == s.store.messages.Keys + {key}
  {
    var u := UpToLookUp(s, a, task);
    t := LooksUp(u, a, message, key, expired);
    RunAppend(s, [Arrive(a, task), Filter(a, true)], u, [Dedup(a, message, key, expired)]);
    assert [Arrive(a, task), Filter(a, true)] + [Dedup(a, message, key, expired)]
        == [Arrive(a, task), Filter(a, true), Dedup(a, message, key, expired)];
    assert u.actors[a := t.actors[a]] == s.actors[a := t.actors[a]];
  }

  lemma FromEvaluationToCheck(s: State, a: nat, content: Scan) returns (t: State)
    requires InPhase(s, a, Evaluating) && s.actors[a].task.Mode().Timed?
    ensures Run(s, [Evaluate(a, Some(content)), Enqueue(a)]) == Some(t)
    ensures InPhase(t, a, Checking) && t.actors[a].task == s.actors[a].task && t.actors == s.actors[a := t.actors[a]]
    ensures t.scheduling == s.scheduling && t.store == s.store
  {
    var u := EvaluateStep(s, a, Some(content));
    t := EnqueueStep(u, a).value;
    RunTwo(s, Evaluate(a, Some(content)), u, Enqueue(a));
  }

  lemma IsLetThrough(s: State, a: nat, task: Task, message: string, key: string) returns (t: State)
    requires a !in s.actors && (task.unique ==> key != "" && key !in s.store.messages)
    ensures Run(s, UpToEvaluation(a, task, message, key)) == Some(t)
    ensures InPhase(t, a, Evaluating) && t.actors == s.actors[a := t.actors[a]] && t.actors[a].task == task
    ensures t == s.(actors := t.actors, store := t.store, ops := t.ops)
    ensures t.store.messages.Keys <= s.store.messages.Keys + {key}
  {
    t := ArrivesAndLooksUp(s, a, task, message, key, None);
  }

  lemma RunBoth(s: State, first: seq<Label>, t: State, second: seq<Label>, u: State)
    requires Run(s, first) == Some(t) && Run(t, second) == Some(u)
    ensures Run(s, first + second) == Some(u)
  {
    RunAppend(s, first, t, second);
  }

  lemma UpToCheckRuns(s: State, a: nat, task: Task, message: string, key: string, content: Scan, t: State, u: State)
    requires Run(s, UpToEvaluation(a, task, message, key)) == Some(t)
    requires Run(t, [Evaluate(a, Some(content)), Enqueue(a)]) == Some(u)
    ensures Run(s, UpToCheck(a, task, message, key, content)) == Some(u)
  {
    RunBoth(s, UpToEvaluation(a, task, message, key), t, [Evaluate(a, Some(content)), Enqueue(a)], u);
  }

  lemma ReachesCheck(s: State, a: nat, task: Task, message: string, key: string, content: Scan) returns (t: State)
    requires a !in s.actors && task.Mode().Timed? && (task.unique ==> key != "" && key !in s.store.messages)
    ensures Run(s, UpToCheck(a, task, message, key, content)) == Some(t)
    ensures InPhase(t, a, Checking) && t.actors[a].task == task && t.actors == s.actors[a := t.actors[a]]
    ensures t.scheduling == s.scheduling && t.store.messages.Keys <= s.store.messages.Keys + {key}
  {
    var u := IsLetThrough(s, a, task, message, key);
    t := FromEvaluationToCheck(u, a, content);
    UpToCheckRuns(s, a, task, message, key, content, u, t);
    WrittenTwice(s.actors, a, u.actors[a], t.actors[a]);
  }

  lemma WrittenTwice<K, V>(m: map<K, V>, k: K, v: V, w: V)
    ensures m[k := v][k := w] == m[k := w]
  {
  }

  /** From the start of the program: any two messages with different keys, handled on a route
      in timed mode, can race and leave a scheduler that no continuation ends. */
  lemma RaceFromTheStart(a: nat, b: nat, g: nat, h: nat, task: Task, messages: (string, string), keys: (string, string),
                         contents: (Scan, Scan)) returns (labels: seq<Label>, t: State)
    requires a != b && g != h && {a, b} !! {g, h} && task.Mode().Timed?
    requires task.unique ==> keys.0 != "" && keys.1 != "" && keys.0 != keys.1
    ensures labels == UpToCheck(a, task, messages.0, keys.0, contents.0)
        + UpToCheck(b, task, messages.1, keys.1, contents.1)
                      + [Check(a), Check(b), Start(a), Launch(a, g), Start(b), Launch(b, h)]
    ensures Run(INITIAL, labels) == Some(t)
    ensures g in t.actors && SchedulerOn(t.actors[g], task.route) && !CanExit(t, g)
    ensures h in t.actors && SchedulerOn(t.actors[h], task.route) && CanExit(t, h)
  {
    var first := UpToCheck(a, task, messages.0, keys.0, contents.0);
    var second := UpToCheck(b, task, messages.1, keys.1, contents.1);
    var race := [Check(a), Check(b), Start(a), Launch(a, g), Start(b), Launch(b, h)];
    var u := ReachesCheck(INITIAL, a, task, messages.0, keys.0, contents.0);
    var v := ReachesCheck(u, b, task, messages.1, keys.1, contents.1);
    RunAppend(INITIAL, first, u, second);
    AlwaysScheduled(INITIAL, first + second, v);
    t := RacingHandlersLeaveOneBehind(v, a, b, g, h);
    RunAppend(INITIAL, first + second, v, race);
    labels := first + second + race;
    CanExitExactly(labels, t, g);
    CanExitExactly(labels, t, h);
  }
}
