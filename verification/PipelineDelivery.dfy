/** One message, one delivery: where the rendered message of a handler can be, over queues and
    parcels of all routes together, direct messages included. */
module PipelineDelivery {
  import opened Wrappers
  import opened Aggregator
  import opened Pipeline
  import opened PipelineSafety

  /** A place in a parcel, or in the queue of a route. */
  datatype Place = InParcel(parcel: nat, index: nat) | InQueue(route: string, index: nat)

  predicate IsAt(s: State, w: Place, h: nat) {
    match w
    case InParcel(p, i) => p < |s.parcels| && i < |s.parcels[p].items| && s.parcels[p].items[i].handler == h
    case InQueue(r, i) => i < |QueueOf(s.queues, r)| && QueueOf(s.queues, r)[i].handler == h
  }

  predicate PastHandler(s: State, h: nat) {
    h in s.actors && s.actors[h].Handler? && Past(s.actors[h].phase)
  }

  /** No handler's message is at two places, and none is anywhere before its handler put it there. */
  ghost predicate OnePlaceEach(s: State) {
    && (forall v, w, h | IsAt(s, v, h) && IsAt(s, w, h) :: v == w)
    && (forall w, h | IsAt(s, w, h) :: PastHandler(s, h))
  }

  lemma PastRemains(s: State, l: Label, t: State, h: nat)
    requires Step(s, l) == Some(t) && PastHandler(s, h)
    ensures PastHandler(t, h)
  {
    EnqueuersRemain(s, l, t, h, s.actors[h].task.route);
  }

  // ---------- Calls to the aggregator ----------

  /** Where a message was before the call; the call's own scan was nowhere. */
  function Before(s: State, c: Call<Item>, w: Place): Option<Place> {
    var n := |List(c.scan)|;
    match w
    case InParcel(p, i) => if p < |s.parcels| then Some(w) else if i < n then None else Some(InQueue(c.route, i - n))
    case InQueue(r, i) => if r != c.route then Some(w) else if i < n then None else Some(InQueue(r, i - n))
  }

  /** What a call does with its queue: it is all kept, or all shipped. */
  ghost predicate Moved(s: State, t: State, c: Call<Item>, output: string) {
    var all := List(c.scan) + QueueOf(s.queues, c.route);
    && (forall r | r != c.route :: QueueOf(t.queues, r) == QueueOf(s.queues, r))
    && ((QueueOf(t.queues, c.route) == all && t.parcels == s.parcels)
        || (QueueOf(t.queues, c.route) == [] && t.parcels == s.parcels + [Parcel(c.route, output, true, all)]))
  }

  lemma CallMoves(s: State, l: Label, t: State, c: Call<Item>)
    requires Step(s, l) == Some(t) && CallOf(s, l) == Some(c) && c.route != ""
    ensures Moved(s, t, c, CallerOutput(s, l))
  {
    CallEffect(s, l, t, c);
    var all := List(c.scan) + QueueOf(s.queues, c.route);
    if all == [] {
      assert t.parcels == s.parcels;
    }
  }

  lemma CameFrom(s: State, t: State, c: Call<Item>, output: string, w: Place, h: nat)
    requires Moved(s, t, c, output) && IsAt(t, w, h)
    ensures match Before(s, c, w) case Some(v) => IsAt(s, v, h) case None => c.scan.Some? && c.scan.value.handler == h
  {
  }

  lemma BeforeDiffers(s: State, t: State, c: Call<Item>, output: string, v: Place, w: Place, h: nat)
    requires Moved(s, t, c, output) && IsAt(t, v, h) && IsAt(t, w, h) && Before(s, c, v) == Before(s, c, w)
    ensures v == w
  {
  }

  lemma CallKeepsPlaces(s: State, l: Label, t: State, c: Call<Item>)
    requires OnePlaceEach(s) && Step(s, l) == Some(t) && CallOf(s, l) == Some(c) && c.route != ""
    ensures OnePlaceEach(t)
  {
    CallMoves(s, l, t, c);
    EnqueuerIsNew(s, l, t, c);
    forall w, h | IsAt(t, w, h)
      ensures PastHandler(t, h) && (Before(s, c, w).None? <==> c.scan.Some? && c.scan.value.handler == h)
    {
      CameFrom(s, t, c, CallerOutput(s, l), w, h);
      if Before(s, c, w).Some? {
        PastRemains(s, l, t, h);
        assert Enqueuer(s, h, s.actors[h].task.route);
      } else {
        assert Enqueuer(t, h, c.route);
      }
    }
    forall v, w, h | IsAt(t, v, h) && IsAt(t, w, h) ensures v == w {
      CameFrom(s, t, c, CallerOutput(s, l), v, h);
      CameFrom(s, t, c, CallerOutput(s, l), w, h);
      BeforeDiffers(s, t, c, CallerOutput(s, l), v, w, h);
    }
  }

  // ---------- All other steps ----------

  /** A message that is not aggregated becomes a parcel of its own. */
  lemma DirectKeepsPlaces(s: State, l: Label, t: State)
    requires OnePlaceEach(s) && l.Evaluate? && HandlerStep(s, l) == Some(t)
    ensures OnePlaceEach(t)
  {
    assert t == EvaluateStep(s, l.a, l.result);
    assert !PastHandler(s, l.a);
    forall w, h | IsAt(t, w, h)
      ensures PastHandler(t, h) && (IsAt(s, w, h) || (h == l.a && w == InParcel(|s.parcels|, 0)))
    {
      if IsAt(s, w, h) {
        PastRemains(s, l, t, h);
      }
    }
    forall v, w, h | IsAt(t, v, h) && IsAt(t, w, h) ensures v == w {
      assert IsAt(s, v, h) ==> PastHandler(s, h);
      assert IsAt(s, w, h) ==> PastHandler(s, h);
    }
  }

  lemma SamePlaces(s: State, l: Label, t: State)
    requires OnePlaceEach(s) && Step(s, l) == Some(t) && t.parcels == s.parcels
    requires forall r :: QueueOf(t.queues, r) == QueueOf(s.queues, r)
    ensures OnePlaceEach(t)
  {
    forall w, h | IsAt(t, w, h) ensures IsAt(s, w, h) && PastHandler(t, h) {
      assert IsAt(s, w, h);
      PastRemains(s, l, t, h);
    }
  }

  /** Only an evaluation, other than by a call to the aggregator, forms a parcel. */
  lemma QuietStep(s: State, l: Label, t: State)
    requires Step(s, l) == Some(t) && CallOf(s, l).None? && !l.Evaluate?
    ensures t.parcels == s.parcels && t.queues == s.queues
  {
    match l
    case Dedup(a, message, key, expired) => DedupShape(s, a, message, key, expired, t);
    case Enqueue(_) =>
    case Tick(_) =>
    case Deliver(_) => SchedulerEffect(s, l, t);
    case Exit(_) => SchedulerEffect(s, l, t);
    case Arrive(_, _) =>
    case Stop(_) =>
    case Clean(_) =>
    case _ => MoveEffect(s, l, t);
  }

  /** Without a route name the aggregator takes nothing. */
  lemma NamelessCall(s: State, l: Label, t: State, c: Call<Item>)
    requires Step(s, l) == Some(t) && CallOf(s, l) == Some(c) && c.route == ""
    ensures t.parcels == s.parcels && t.queues == s.queues
  {
    CallEffect(s, l, t, c);
  }

  lemma PlacesStep(s: State, l: Label, t: State)
    requires OnePlaceEach(s) && Step(s, l) == Some(t)
    ensures OnePlaceEach(t)
  {
    match CallOf(s, l)
    case Some(c) =>
      if c.route == "" {
        NamelessCall(s, l, t, c);
        SamePlaces(s, l, t);
      } else {
        CallKeepsPlaces(s, l, t, c);
      }
    case None =>
      if l.Evaluate? {
        DirectKeepsPlaces(s, l, t);
      } else {
        QuietStep(s, l, t);
        SamePlaces(s, l, t);
      }
  }

  lemma {:induction false} AlwaysOnePlace(s: State, labels: seq<Label>, t: State)
    requires OnePlaceEach(s) && Run(s, labels) == Some(t)
    ensures OnePlaceEach(t)
    decreases |labels|
  {
    if labels != [] {
      var u := Step(s, labels[0]).value;
      PlacesStep(s, labels[0], u);
      AlwaysOnePlace(u, labels[1..], t);
    }
  }

  // ---------- Main results ----------

  /** In every reachable state the message of a handler is at one place at most, in one queue
      or one parcel of any route. */
  lemma MessageAtOnePlace(labels: seq<Label>, s: State, v: Place, w: Place, h: nat)
    requires Run(INITIAL, labels) == Some(s) && IsAt(s, v, h) && IsAt(s, w, h)
    ensures v == w && PastHandler(s, h)
  {
    AlwaysOnePlace(INITIAL, labels, s);
  }

  /** The `m`-th parcel sent holds the message of handler `h` at place `i`. */
  predicate SentAt(s: State, m: nat, i: nat, h: nat) {
    m < |s.sent| && IsAt(s, InParcel(s.sent[m], i), h)
  }

  /** So it is sent at most once, alone or in a batch, and once sent it is neither pending nor
      given up. */
  lemma MessageSentAtMostOnce(labels: seq<Label>, s: State, h: nat, m: nat, i: nat)
    requires Run(INITIAL, labels) == Some(s) && SentAt(s, m, i, h)
    ensures forall n: nat, j: nat | SentAt(s, n, j, h) :: n == m && j == i
    ensures forall r: string, k: nat :: !IsAt(s, InQueue(r, k), h)
    ensures forall p: nat, j: nat | p in s.dropped :: !IsAt(s, InParcel(p, j), h)
  {
    InitiallySafe();
    AlwaysSafe(INITIAL, labels, s);
    AlwaysOnePlace(INITIAL, labels, s);
    var w := InParcel(s.sent[m], i);
    assert s.sent[m] in s.sent;
    forall n: nat, j: nat | SentAt(s, n, j, h) ensures n == m && j == i {
      assert InParcel(s.sent[n], j) == w;
    }
  }
}
