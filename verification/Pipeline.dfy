/** The message pipeline as a step machine. Every `MsgHandling` call and every scheduler
    is a goroutine of its own; a step is one database call (they are serialised by a
    mutex), one read or write of `route.Scheduling`, one send, or one outcome of code
    that the model leaves open. Any step of any goroutine may come next. */
module Pipeline {
  import opened Wrappers
  import opened Aggregator
  import opened Timestamps
  import MessageStore
  import StoreHistory

  // ---------- State ----------

  datatype Mode = Count | Timed | Direct

  /** What a handler is given: its output, its route and the template's evaluator. */
  datatype Task = Task(route: string, output: string, number: int, timeout: int, unique: bool,
                       aggregationSupported: bool) {
    function Mode(): Mode {
      if number > 0 && aggregationSupported then Count
      else if timeout > 0 && aggregationSupported then Timed
      else Direct
    }
  }

  /** A rendered message, marked with the handler that rendered it. */
  datatype Item = Item(handler: nat, content: Scan)

  datatype Outcome = Rejected | Duplicate | Failed | Queued | Delivered | Dropped

  datatype Phase =
    | Filtering
    | Deduping
    | Evaluating
    | Aggregating(content: Scan)
    | Building(parcel: nat)
    | Checking
    | Starting
    | Launching
    | Sending(parcel: nat)
    | Finished(outcome: Outcome)

  /** `stored` is the step of the store's history that accepted the message. */
  datatype Actor =
    | Handler(task: Task, phase: Phase, stored: Option<nat>)
    | Scheduler(route: string, output: string, done: nat, batch: Option<nat>)
    | Exited

  /** Messages that travel to an output together: a batch out of the queue of a route,
      or one message on its own. */
  datatype Parcel = Parcel(route: string, output: string, fromQueue: bool, items: seq<Item>)

  /** The two databases, the scheduling field of each route, the goroutines, and four
      logs: the parcels formed, those sent, those given up, and all database calls.
      `channels[c]` is the route that made channel `c`. */
  datatype State = State(
    store: MessageStore.Store,
    queues: map<string, seq<Item>>,
    scheduling: map<string, nat>,
    channels: seq<string>,
    closed: set<nat>,
    actors: map<nat, Actor>,
    parcels: seq<Parcel>,
    sent: seq<nat>,
    dropped: seq<nat>,
    calls: seq<Call<Item>>,
    ops: seq<StoreHistory.Op>)

  const INITIAL := State(MessageStore.EMPTY, map[], map[], [], {}, map[], [], [], [], [], [])

  datatype Label =
    | Arrive(a: nat, task: Task)
    | Filter(a: nat, matches: bool)
    | Dedup(a: nat, message: string, key: string, expired: Option<Time>)
    | Evaluate(a: nat, result: Option<Scan>)
    | Enqueue(a: nat)
    | Build(a: nat, ok: bool)
    | Check(a: nat)
    | Start(a: nat)
    | Launch(a: nat, goroutine: nat)
    | Send(a: nat)
    | Tick(a: nat)
    | Deliver(a: nat)
    | Exit(a: nat)
    | Stop(route: string)
    | Clean(op: StoreHistory.Op)

  // ---------- Steps ----------

  predicate InPhase(s: State, a: nat, phase: Phase) {
    a in s.actors && s.actors[a].Handler? && s.actors[a].phase == phase
  }

  function Move(s: State, a: nat, phase: Phase): State
    requires a in s.actors && s.actors[a].Handler?
  {
    s.(actors := s.actors[a := s.actors[a].(phase := phase)])
  }

  /** One aggregator call; without a route name it fails and changes nothing. */
  ghost function CallAggregator(s: State, c: Call<Item>): (State, Option<seq<Item>>) {
    var s' := s.(calls := s.calls + [c]);
    if c.route == "" then (s', None) else
      var (pending, released) := Effect(s.queues, c);
      (s'.(queues := s.queues[c.route := pending]), released)
  }

  ghost function CallStore(s: State, op: StoreHistory.Op): State {
    s.(store := StoreHistory.Apply(s.store, op), ops := s.ops + [op])
  }

  function Ship(s: State, parcel: Parcel): State {
    s.(parcels := s.parcels + [parcel])
  }

  ghost function DedupStep(s: State, a: nat, message: string, key: string, expired: Option<Time>): State
    requires InPhase(s, a, Deduping)
  {
    if !s.actors[a].task.unique then
      Move(s, a, Evaluating)
    else
      var t := CallStore(s, StoreHistory.Put(message, key, expired));
      match MessageStore.StoreMessage(s.store, message, key, expired).1
      case Ok(true) => t.(actors := t.actors[a := t.actors[a].(phase := Evaluating, stored := Some(|s.ops|))])
      case Ok(false) => Move(t, a, Finished(Duplicate))
      case Err(_) => Move(t, a, Finished(Failed))
  }

  ghost function EvaluateStep(s: State, a: nat, result: Option<Scan>): State
    requires InPhase(s, a, Evaluating)
  {
    match result
    case None => Move(s, a, Finished(Failed))
    case Some(content) =>
      if s.actors[a].task.Mode().Direct? then
        var parcel := Parcel(s.actors[a].task.route, s.actors[a].task.output, false, [Item(a, content)]);
        Move(Ship(s, parcel), a, Sending(|s.parcels|))
      else
        Move(s, a, Aggregating(content))
  }

  /** The call `MsgHandling` makes for its content. */
  function EnqueueCall(a: nat, task: Task, content: Scan): Call<Item>
    requires !task.Mode().Direct?
  {
    var item := if |content| > 0 then Some(Item(a, content)) else None;
    if task.Mode().Count? then Call(task.route, item, task.number, false) else Call(task.route, item, 0, true)
  }

  ghost function EnqueueStep(s: State, a: nat): Option<State>
    requires a in s.actors && s.actors[a].Handler? && s.actors[a].phase.Aggregating?
  {
    var task := s.actors[a].task;
    if task.Mode().Direct? then None else
      var (t, released) := CallAggregator(s, EnqueueCall(a, task, s.actors[a].phase.content));
      if task.Mode().Timed? then
        Some(Move(t, a, Checking))
      else if released.Some? && |released.value| > 0 then
        Some(Move(Ship(t, Parcel(task.route, task.output, true, released.value)), a, Building(|t.parcels|)))
      else
        Some(Move(t, a, Finished(Queued)))
  }

  ghost function HandlerStep(s: State, l: Label): Option<State> {
    match l
    case Filter(a, matches) =>
      if !InPhase(s, a, Filtering) then None
      else Some(Move(s, a, if matches then Deduping else Finished(Rejected)))
    case Dedup(a, message, key, expired) =>
      if InPhase(s, a, Deduping) then Some(DedupStep(s, a, message, key, expired)) else None
    case Evaluate(a, result) =>
      if InPhase(s, a, Evaluating) then Some(EvaluateStep(s, a, result)) else None
    case Enqueue(a) =>
      if a in s.actors && s.actors[a].Handler? && s.actors[a].phase.Aggregating? then EnqueueStep(s, a) else None
    case Build(a, ok) =>
      if !(a in s.actors && s.actors[a].Handler? && s.actors[a].phase.Building?) then None
      else if ok then Some(Move(s, a, Sending(s.actors[a].phase.parcel)))
      else Some(Move(s, a, Finished(Dropped)).(dropped := s.dropped + [s.actors[a].phase.parcel]))
    case Check(a) =>
      if !InPhase(s, a, Checking) then None
      else Some(Move(s, a, if s.actors[a].task.route in s.scheduling then Finished(Queued) else Starting))
    case Start(a) =>
      if !InPhase(s, a, Starting) then None
      else Some(Move(s, a, Launching).(scheduling := s.scheduling[s.actors[a].task.route := |s.channels|],
                                       channels := s.channels + [s.actors[a].task.route]))
    case Launch(a, g) =>
      if !InPhase(s, a, Launching) || g in s.actors || s.actors[a].task.route !in s.scheduling then None
      else
        var route := s.actors[a].task.route;
        var t := Move(s, a, Finished(Queued));
        Some(t.(actors := t.actors[g := Scheduler(route, s.actors[a].task.output, s.scheduling[route], None)]))
    case Send(a) =>
      if !(a in s.actors && s.actors[a].Handler? && s.actors[a].phase.Sending?) then None
      else Some(Move(s, a, Finished(Delivered)).(sent := s.sent + [s.actors[a].phase.parcel]))
    case _ => None
  }

  /** A scheduler that ticks drains the queue of its route; a batch is sent whether or not
      its aggregated content could be built. */
  ghost function SchedulerStep(s: State, l: Label): Option<State> {
    match l
    case Tick(g) =>
      if !(g in s.actors && s.actors[g].Scheduler? && s.actors[g].batch.None?) then None
      else
        var route := s.actors[g].route;
        var (t, released) := CallAggregator(s, Call(route, None, 0, false));
        if released.Some? && |released.value| > 0 then
          Some(Ship(t, Parcel(route, s.actors[g].output, true, released.value))
               .(actors := t.actors[g := t.actors[g].(batch := Some(|t.parcels|))]))
        else
          Some(t)
    case Deliver(g) =>
      if !(g in s.actors && s.actors[g].Scheduler? && s.actors[g].batch.Some?) then None
      else Some(s.(actors := s.actors[g := s.actors[g].(batch := None)],
                   sent := s.sent + [s.actors[g].batch.value]))
    case Exit(g) =>
      if !(g in s.actors && s.actors[g].Scheduler? && s.actors[g].batch.None? && s.actors[g].done in s.closed) then None
      else Some(s.(actors := s.actors[g := Exited]))
    case _ => None
  }

  /** The next state, if the step is possible in `s`. */
  ghost function Step(s: State, l: Label): Option<State> {
    match l
    case Arrive(a, task) =>
      if a in s.actors then None else Some(s.(actors := s.actors[a := Handler(task, Filtering, None)]))
    case Stop(route) =>
      if route !in s.scheduling then Some(s)
      else if s.scheduling[route] in s.closed then None
      else Some(s.(closed := s.closed + {s.scheduling[route]}))
    case Clean(op) =>
      if op.Put? then None else Some(CallStore(s, op))
    case Tick(_) => SchedulerStep(s, l)
    case Deliver(_) => SchedulerStep(s, l)
    case Exit(_) => SchedulerStep(s, l)
    case _ => HandlerStep(s, l)
  }

  /** The state an interleaving leads to from `s`, if every step of it is possible. */
  ghost function Run(s: State, labels: seq<Label>): Option<State>
    decreases |labels|
  {
    if labels == [] then Some(s) else
      match Step(s, labels[0])
      case None => None
      case Some(t) => Run(t, labels[1..])
  }
}
