/** De-duplication under every interleaving: when a message key passes twice, and what
    becomes of the several handlings of one message. */
module PipelineDedup {
  import opened Wrappers
  import opened Aggregator
  import opened Pipeline
  import opened PipelineSafety
  import Dispatch
  import PipelineSchedulers
  import StoreHistory
  import Timestamps

  // ---------- De-duplication ----------

  /** A handler of a de-duplicating route that got past the store was accepted by it, in a
      step that is no other handler's. */
  ghost predicate StoredOnce(s: State) {
    && (forall a | a in s.actors && s.actors[a].Handler? && s.actors[a].task.unique && PastDedup(s.actors[a].phase) ::
          s.actors[a].stored.Some?)
    && (forall a | a in s.actors && s.actors[a].Handler? && s.actors[a].stored.Some? ::
          var i := s.actors[a].stored.value;
          i < |s.ops| && s.ops[i].Put? && StoreHistory.Accepted(s.ops, i, s.ops[i].key))
    && (forall a, b | a in s.actors && b in s.actors && s.actors[a].Handler? && s.actors[b].Handler?
          && s.actors[a].stored.Some? && s.actors[a].stored == s.actors[b].stored :: a == b)
  }

  lemma AcceptedPrefix(ops: seq<StoreHistory.Op>, op: StoreHistory.Op, i: nat)
    requires i < |ops| && ops[i].Put? && StoreHistory.Accepted(ops, i, ops[i].key)
    ensures StoreHistory.Accepted(ops + [op], i, ops[i].key)
  {
    StoreHistory.AtOfPrefix(ops, [op], i);
  }

  lemma AcceptancesStay(s: State, op: StoreHistory.Op)
    requires StoredOnce(s)
    ensures forall a | a in s.actors && s.actors[a].Handler? && s.actors[a].stored.Some? ::
              StoreHistory.Accepted(s.ops + [op], s.actors[a].stored.value, s.ops[s.actors[a].stored.value].key)
  {
    forall a | a in s.actors && s.actors[a].Handler? && s.actors[a].stored.Some?
      ensures StoreHistory.Accepted(s.ops + [op], s.actors[a].stored.value, s.ops[s.actors[a].stored.value].key)
    {
      AcceptedPrefix(s.ops, op, s.actors[a].stored.value);
    }
  }

  /** A handler that is let through notes the step that accepted its message. */
  lemma StoredNew(s: State, op: StoreHistory.Op, t: State, a: nat)
    requires StoredOnce(s) && a in s.actors && a in t.actors && t.actors == s.actors[a := t.actors[a]]
    requires t.actors[a].Handler? && t.actors[a].stored == Some(|s.ops|) && t.ops == s.ops + [op]
    requires op.Put? && StoreHistory.Accepted(t.ops, |s.ops|, op.key)
    ensures StoredOnce(t)
  {
    AcceptancesStay(s, op);
  }

  /** Any other outcome leaves it as it was. */
  lemma StoredSame(s: State, more: seq<StoreHistory.Op>, t: State, a: nat)
    requires StoredOnce(s) && a in s.actors && s.actors[a].Handler? && a in t.actors
        && t.actors == s.actors[a := t.actors[a]]
    requires t.actors[a].Handler? && t.actors[a].stored == s.actors[a].stored && t.actors[a].task == s.actors[a].task
    requires s.actors[a].task.unique ==> !PastDedup(t.actors[a].phase)
    requires |more| <= 1 && t.ops == s.ops + more
    ensures StoredOnce(t)
  {
    if more == [] {
      assert t.ops == s.ops;
    } else {
      assert more == [more[0]];
      AcceptancesStay(s, more[0]);
    }
  }

  lemma StoredDedup(s: State, l: Label, t: State)
    requires StoredOnce(s) && HistoryKept(s) && l.Dedup? && Step(s, l) == Some(t)
    ensures StoredOnce(t)
  {
    DedupShape(s, l.a, l.message, l.key, l.expired, t);
    var op := StoreHistory.Put(l.message, l.key, l.expired);
    if s.actors[l.a].task.unique && t.actors[l.a].phase == Evaluating {
      StoreHistory.AtOfPrefix(s.ops, [op], |s.ops|);
      StoredNew(s, op, t, l.a);
    } else {
      StoredSame(s, if t.ops == s.ops then [] else [op], t, l.a);
    }
  }

  lemma StoredClean(s: State, op: StoreHistory.Op, t: State)
    requires StoredOnce(s) && Step(s, Clean(op)) == Some(t)
    ensures StoredOnce(t)
  {
    AcceptancesStay(s, op);
  }

  lemma StoredStep(s: State, l: Label, t: State)
    requires StoredOnce(s) && HistoryKept(s) && Step(s, l) == Some(t)
    ensures StoredOnce(t)
  {
    match l
    case Dedup(_, _, _, _) => StoredDedup(s, l, t);
    case Clean(op) => StoredClean(s, op, t);
    case _ =>
      ActorsAfterStep(s, l, t);
      StoreEffect(s, l, t);
      StoredKept(s, t);
  }

  lemma StoredKept(s: State, t: State)
    requires StoredOnce(s) && ActorsKept(s, t) && t.ops == s.ops + []
    ensures StoredOnce(t)
  {
    assert t.ops == s.ops;
  }

  lemma {:induction false} AlwaysStoredOnce(s: State, labels: seq<Label>, t: State)
    requires StoredOnce(s) && HistoryKept(s) && Run(s, labels) == Some(t)
    ensures StoredOnce(t)
    decreases |labels|
  {
    if labels != [] {
      var u := Step(s, labels[0]).value;
      StoredStep(s, labels[0], u);
      HistoryStep(s, labels[0], u);
      AlwaysStoredOnce(u, labels[1..], t);
    }
  }

  /** De-duplication over all interleavings: two handlers of de-duplicating routes whose
      messages have the same key both get past the store only if the key was removed from
      it between the two acceptances. */
  lemma SameKeyPassesTwiceOnlyAfterRemoval(labels: seq<Label>, s: State, a: nat, b: nat)
    requires Run(INITIAL, labels) == Some(s)
    requires a != b && a in s.actors && b in s.actors && s.actors[a].Handler? && s.actors[b].Handler?
    requires s.actors[a].task.unique && PastDedup(s.actors[a].phase)
    requires s.actors[b].task.unique && PastDedup(s.actors[b].phase)
    ensures s.actors[a].stored.Some? && s.actors[b].stored.Some?
    ensures var i, j := s.actors[a].stored.value, s.actors[b].stored.value;
            && i < |s.ops| && j < |s.ops| && s.ops[i].Put? && s.ops[j].Put?
            && (s.ops[i].key == s.ops[j].key ==>
                  exists m :: (i < m < j || j < m < i) && StoreHistory.Removed(s.ops, m, s.ops[i].key))
  {
    AlwaysStoredOnce(INITIAL, labels, s);
    var i, j := s.actors[a].stored.value, s.actors[b].stored.value;
    if s.ops[i].key == s.ops[j].key {
      if i < j {
        StoreHistory.AcceptedOnceBetweenRemovals(s.ops, i, j, s.ops[i].key);
      } else {
        StoreHistory.AcceptedOnceBetweenRemovals(s.ops, j, i, s.ops[i].key);
      }
    }
  }

  // ---------- Several handlings of one message ----------

  lemma {:induction false} StoreCallsAddUp(s: State, labels: seq<Label>, t: State) returns (more: seq<StoreHistory.Op>)
    requires Run(s, labels) == Some(t)
    ensures t.ops == s.ops + more
    decreases |labels|
  {
    if labels == [] {
      more := [];
    } else {
      var u := Step(s, labels[0]).value;
      StoreEffect(s, labels[0], u);
      var rest := StoreCallsAddUp(u, labels[1..], t);
      more := List(StoreCallOf(s, labels[0])) + rest;
    }
  }

  lemma KeyStaysStored(s: State, labels: seq<Label>, t: State, key: string)
    requires Safe(s) && key in s.store.messages && Run(s, labels) == Some(t)
    requires forall m | |s.ops| <= m < |t.ops| :: !StoreHistory.Removed(t.ops, m, key)
    ensures key in t.store.messages
  {
    AlwaysSafe(s, labels, t);
    var more := StoreCallsAddUp(s, labels, t);
    StoreHistory.AtOfPrefix(s.ops, more, |s.ops|);
    StoreHistory.KeptUnlessRemoved(t.ops, |s.ops|, |t.ops|, key);
  }

  /** In every reachable state a handler of a de-duplicating route is turned away if and only
      if its key was accepted before and not removed since. */
  lemma TurnedAwayExactly(labels: seq<Label>, s: State, a: nat, message: string, key: string,
                          expired: Option<Timestamps.Time>, t: State)
    requires Run(INITIAL, labels) == Some(s) && InPhase(s, a, Deduping) && s.actors[a].task.unique
    requires Step(s, Dedup(a, message, key, expired)) == Some(t)
    ensures InPhase(t, a, Finished(Duplicate))
       <==> exists i :: 0 <= i < |s.ops| && StoreHistory.Accepted(s.ops, i, key)
                        && forall m | i < m < |s.ops| :: !StoreHistory.Removed(s.ops, m, key)
  {
    InitiallySafe();
    AlwaysSafe(INITIAL, labels, s);
    StoreHistory.StoredExactly(s.ops, |s.ops|, key);
    assert InPhase(t, a, Finished(Duplicate)) <==> key in s.store.messages;
  }

  lemma FinishedStep(s: State, l: Label, t: State, a: nat)
    requires Step(s, l) == Some(t) && a in s.actors && s.actors[a].Handler? && s.actors[a].phase.Finished?
    ensures a in t.actors && t.actors[a] == s.actors[a]
  {
    match l
    case Dedup(b, message, key, expired) => DedupShape(s, b, message, key, expired, t);
    case Enqueue(b) => EnqueueShape(s, b, t);
    case Evaluate(b, result) => assert t == EvaluateStep(s, b, result);
    case Tick(_) => SchedulerLeavesHandlers(s, l, t, a);
    case Deliver(_) => SchedulerLeavesHandlers(s, l, t, a);
    case Exit(_) => SchedulerLeavesHandlers(s, l, t, a);
    case Arrive(_, _) =>
    case Stop(_) =>
    case Clean(_) =>
    case Build(_, _) => FinishedAfterSend(s, l, t, a);
    case Send(_) => FinishedAfterSend(s, l, t, a);
    case _ => FinishedAfterMove(s, l, t, a);
  }

  lemma FinishedAfterSend(s: State, l: Label, t: State, a: nat)
    requires (l.Build? || l.Send?) && HandlerStep(s, l) == Some(t)
    requires a in s.actors && s.actors[a].Handler? && s.actors[a].phase.Finished?
    ensures a in t.actors && t.actors[a] == s.actors[a]
  {
  }

  lemma FinishedAfterMove(s: State, l: Label, t: State, a: nat)
    requires (l.Filter? || l.Check? || l.Start? || l.Launch?) && HandlerStep(s, l) == Some(t)
    requires a in s.actors && s.actors[a].Handler? && s.actors[a].phase.Finished?
    ensures a in t.actors && t.actors[a] == s.actors[a]
  {
  }

  lemma SchedulerLeavesHandlers(s: State, l: Label, t: State, a: nat)
    requires SchedulerStep(s, l) == Some(t) && a in s.actors && s.actors[a].Handler?
    ensures a in t.actors && t.actors[a] == s.actors[a]
  {
  }

  lemma {:induction false} FinishedIsFinal(s: State, labels: seq<Label>, t: State, a: nat)
    requires Run(s, labels) == Some(t) && a in s.actors && s.actors[a].Handler? && s.actors[a].phase.Finished?
    ensures a in t.actors && t.actors[a] == s.actors[a]
    decreases |labels|
  {
    if labels != [] {
      var u := Step(s, labels[0]).value;
      FinishedStep(s, labels[0], u, a);
      FinishedIsFinal(u, labels[1..], t, a);
    }
  }

  lemma StoredOnceLetThrough(before: seq<Label>, s: State, a: nat, message: string, key: string,
                             expired: Option<Timestamps.Time>, t: State)
    requires Run(INITIAL, before) == Some(s) && InPhase(s, a, Deduping) && s.actors[a].task.unique
    requires Step(s, Dedup(a, message, key, expired)) == Some(t) && InPhase(t, a, Evaluating)
    ensures Safe(t) && key in t.store.messages
  {
    InitiallySafe();
    AlwaysSafe(INITIAL, before, s);
    PipelineSchedulers.RunOne(s, Dedup(a, message, key, expired));
    AlwaysSafe(s, [Dedup(a, message, key, expired)], t);
    DedupStore(s, a, message, key, expired, t);
  }

  /** The handlings of one message for several outputs, or on several routes, look up the
      same key. Unless the key is removed between the two look-ups, the first that is let
      through turns the other away, and for good. */
  lemma OneHandlingPassesForAll(before: seq<Label>, s: State, a: nat, message: string, key: string,
                                expired: Option<Timestamps.Time>, s': State,
                                labels: seq<Label>, t: State, b: nat, expired': Option<Timestamps.Time>, t': State,
                                more: seq<Label>, u: State)
    requires Run(INITIAL, before) == Some(s)
    requires InPhase(s, a, Deduping) && s.actors[a].task.unique && Step(s, Dedup(a, message, key, expired)) == Some(s')
    requires s'.actors[a].phase.Evaluating?
    requires Run(s', labels) == Some(t) && forall m | |s'.ops| <= m < |t.ops| :: !StoreHistory.Removed(t.ops, m, key)
    requires InPhase(t, b, Deduping) && t.actors[b].task.unique && Step(t, Dedup(b, message, key, expired')) == Some(t')
    requires Run(t', more) == Some(u)
    ensures InPhase(u, b, Finished(Duplicate))
  {
    StoredOnceLetThrough(before, s, a, message, key, expired, s');
    KeyStaysStored(s', labels, t, key);
    FinishedIsFinal(t', more, u, b);
  }

  // ---------- All handlings of one message ----------

  function Turn(a: nat, task: Task, message: string, key: string, expired: Option<Timestamps.Time>): seq<Label> {
    [Arrive(a, task), Filter(a, true), Dedup(a, message, key, expired)]
  }

  /** One handling after the other, each up to its look-up. */
  function Turns(tasks: seq<Task>, message: string, key: string, expired: Option<Timestamps.Time>): seq<Label> {
    if tasks == [] then [] else
      var n := |tasks| - 1;
      Turns(tasks[..n], message, key, expired) + Turn(n, tasks[n], message, key, expired)
  }

  ghost predicate Lined(s: State, tasks: seq<Task>) {
    && (forall a: nat | a in s.actors :: a < |tasks|)
    && (forall a: nat | a < |tasks| :: a in s.actors && s.actors[a].Handler? && s.actors[a].task == tasks[a]
                                       && s.actors[a].phase == if a == 0 then Evaluating else Finished(Duplicate))
  }

  lemma NextIsNew(s: State, tasks: seq<Task>)
    requires Lined(s, tasks)
    ensures |tasks| !in s.actors
  {
  }

  lemma LinedUp(s: State, tasks: seq<Task>, t: State)
    requires tasks != [] && Lined(s, tasks[..|tasks| - 1])
    requires |tasks| - 1 in t.actors && t.actors == s.actors[|tasks| - 1 := t.actors[|tasks| - 1]]
    requires var x := t.actors[|tasks| - 1];
             x.Handler? && x.task == tasks[|tasks| - 1]
               && x.phase == if |tasks| == 1 then Evaluating else Finished(Duplicate)
    ensures Lined(t, tasks)
  {
    var before := tasks[..|tasks| - 1];
    assert forall a: nat | a < |before| :: a in s.actors && a in t.actors && t.actors[a] == s.actors[a];
  }

  lemma {:induction false} OnlyFirstPasses(tasks: seq<Task>, message: string, key: string,
                                           expired: Option<Timestamps.Time>) returns (t: State)
    requires key != "" && forall i | 0 <= i < |tasks| :: tasks[i].unique
    ensures Run(INITIAL, Turns(tasks, message, key, expired)) == Some(t) && Lined(t, tasks)
    ensures key in t.store.messages <==> tasks != []
  {
    if tasks == [] {
      t := INITIAL;
    } else {
      var n := |tasks| - 1;
      var before := tasks[..n];
      assert |before| == n && forall i | 0 <= i < n :: before[i] == tasks[i];
      var s := OnlyFirstPasses(before, message, key, expired);
      NextIsNew(s, before);
      t := PipelineSchedulers.ArrivesAndLooksUp(s, n, tasks[n], message, key, expired);
      PipelineSchedulers.RunAppend(INITIAL, Turns(before, message, key, expired), s,
        Turn(n, tasks[n], message, key, expired));
      LinedUp(s, tasks, t);
    }
  }

  /** From the start of the program: of all the handlings that are due for a message, on
      de-duplicating routes with one key, the first gets past and every other one, for its own
      output, is turned away. */
  lemma OneOutputGetsTheMessage(c: Dispatch.Config, started: seq<Dispatch.Handling>, settings: string -> Task,
                                message: string, key: string, expired: Option<Timestamps.Time>)
    returns (labels: seq<Label>, t: State)
    requires forall h :: multiset(started)[h] == Dispatch.Due(c, h)
    requires key != "" && forall name | name in c.routes :: settings(name).unique
    ensures labels == Turns(seq(|started|, i requires 0 <= i < |started| => settings(started[i].route)),
                            message, key, expired)
    ensures Run(INITIAL, labels) == Some(t)
    ensures forall h | Dispatch.Due(c, h) > 0 ::
              exists a :: 0 <= a < |started| && started[a] == h
                          && InPhase(t, a, if a == 0 then Evaluating else Finished(Duplicate))
                            && t.actors[a].task == settings(h.route)
  {
    var tasks := seq(|started|, i requires 0 <= i < |started| => settings(started[i].route));
    forall i | 0 <= i < |tasks| ensures tasks[i].unique {
      assert started[i] in multiset(started) && Dispatch.Due(c, started[i]) > 0;
    }
    labels := Turns(tasks, message, key, expired);
    t := OnlyFirstPasses(tasks, message, key, expired);
    forall h | Dispatch.Due(c, h) > 0
      ensures exists a :: 0 <= a < |started| && started[a] == h
                          && InPhase(t, a, if a == 0 then Evaluating else Finished(Duplicate))
                            && t.actors[a].task == settings(h.route)
    {
      assert h in started by { assert multiset(started)[h] > 0; }
      var a :| 0 <= a < |started| && started[a] == h;
      assert a in t.actors;
    }
  }
}
