/** The life cycle of the router: any number of goroutines that call `ReloadConfig`, that is
    `Terminate` and then `Start`, against the goroutines these start and stop, and the
    message queue that outlives reloads. A quit is a rendezvous: it happens only with a
    goroutine that listens for it. */
module Router {
  import opened Wrappers

  const QUEUE_CAPACITY := 1000

  /** Where a reloading goroutine stands: `Terminate` closes the schedulers of the routes it
      found (`todo` are those left), has then stopped a listener and looks for a ticker,
      stops the maintenance goroutine; `Start` clears the fields and loads. */
  datatype Phase = Closing(todo: set<nat>) | Checking | StoppingTicker | Resetting | Loading

  /** Route objects are numbered as they are made, and so are channels. `parsed` tells
      whether the last `load` could read its configuration; `scheduling` gives the current
      channel of a route object; `closes` logs every channel closed, `accepted` every message
      `Send` took and `handed` every message given to `handle`. */
  datatype State = State(
    reloads: map<nat, Phase>,
    parsed: bool,
    listeners: nat,
    maintainers: nat,
    ticker: bool,
    routes: set<nat>,
    objects: nat,
    scheduling: map<nat, nat>,
    channels: nat,
    closes: seq<nat>,
    queue: seq<string>,
    accepted: seq<string>,
    handed: seq<string>)

  /** The main goroutine, number 0, is about to start the router for the first time. */
  const INITIAL := State(map[0 := Resetting], false, 0, 0, false, {}, 0, map[], 0, [], [], [], [])

  datatype Label =
    | Reload(r: nat)
    | CloseRoute(r: nat, obj: nat)
    | Quit(r: nat)
    | CheckTicker(r: nat)
    | StopTicker(r: nat)
    | Reset(r: nat)
    | Load(r: nat, ok: bool, count: nat, loaded: set<nat>)
    | Accept(message: string)
    | Listen
    | StartScheduler(obj: nat)

  /** `bytes.ReplaceAll` of backticks by single quotes. */
  function Clean(message: string): string {
    seq(|message|, i requires 0 <= i < |message| => if message[i] == '`' then '\'' else message[i])
  }

  predicate InPhase(s: State, r: nat, phase: Phase) {
    r in s.reloads && s.reloads[r] == phase
  }

  function Move(s: State, r: nat, phase: Phase): State {
    s.(reloads := s.reloads[r := phase])
  }

  /** `StopScheduler`: closes the channel the route object has now, if any. */
  function CloseStep(s: State, r: nat, obj: nat): Option<State> {
    if !ToClose(s, r, obj) then None
    else
      Some(Move(s, r, Closing(s.reloads[r].todo - {obj}))
           .(closes := s.closes + (if obj in s.scheduling then [s.scheduling[obj]] else [])))
  }

  /** `load` makes an object for each of `count` configured routes, of which the last one of
      each name is kept, and starts the maintenance goroutine; `Start` then starts the
      listener. None of this happens when the configuration does not parse. */
  function LoadStep(s: State, r: nat, ok: bool, count: nat, loaded: set<nat>): Option<State> {
    if !InPhase(s, r, Loading) || (exists o | o in loaded :: o < s.objects || o >= s.objects + count) then None
    else if !ok then Some(s.(reloads := s.reloads - {r}, parsed := false))
    else
      Some(s.(reloads := s.reloads - {r}, parsed := true,
              listeners := s.listeners + 1, maintainers := s.maintainers + 1,
              ticker := true, routes := loaded, objects := s.objects + count))
  }

  function ReloadStep(s: State, l: Label): Option<State> {
    match l
    case Reload(r) => if r in s.reloads then None else Some(Move(s, r, Closing(s.routes)))
    case CloseRoute(r, obj) => CloseStep(s, r, obj)
    case Quit(r) =>
      if !InPhase(s, r, Closing({})) || s.listeners == 0 then None
      else Some(Move(s, r, Checking).(listeners := s.listeners - 1))
    case CheckTicker(r) =>
      if !InPhase(s, r, Checking) then None else Some(Move(s, r, if s.ticker then StoppingTicker else Resetting))
    case StopTicker(r) =>
      if !InPhase(s, r, StoppingTicker) || s.maintainers == 0 then None
      else Some(Move(s, r, Resetting).(maintainers := s.maintainers - 1))
    case Reset(r) =>
      if !InPhase(s, r, Resetting) then None else Some(Move(s, r, Loading).(ticker := false, routes := {}))
    case Load(r, ok, count, loaded) => LoadStep(s, r, ok, count, loaded)
    case _ => None
  }

  function Step(s: State, l: Label): Option<State> {
    match l
    case Accept(message) =>
      if |s.queue| >= QUEUE_CAPACITY then None
      else Some(s.(queue := s.queue + [message], accepted := s.accepted + [message]))
    case Listen =>
      if s.listeners == 0 || s.queue == [] then None
      else Some(s.(queue := s.queue[1..], handed := s.handed + [Clean(s.queue[0])]))
    case StartScheduler(obj) =>
      if obj >= s.objects then None
      else Some(s.(scheduling := s.scheduling[obj := s.channels], channels := s.channels + 1))
    case _ => ReloadStep(s, l)
  }

  function Run(s: State, labels: seq<Label>): Option<State>
    decreases |labels|
  {
    if labels == [] then Some(s) else
      match Step(s, labels[0])
      case None => None
      case Some(t) => Run(t, labels[1..])
  }

  lemma {:induction false} RunAppend(s: State, first: seq<Label>, t: State, second: seq<Label>)
    requires Run(s, first) == Some(t)
    ensures Run(s, first + second) == Run(t, second)
    decreases |first|
  {
    if first == [] {
      assert first + second == second;
    } else {
      assert (first + second)[1..] == first[1..] + second;
      RunAppend(Step(s, first[0]).value, first[1..], t, second);
    }
  }

  // ---------- Goroutines, in every run ----------

  function One(b: bool): nat {
    if b then 1 else 0
  }

  /** A reload that is past its quit; the listener it stopped is a token. */
  predicate Holds(s: State, r: nat) {
    r in s.reloads && !s.reloads[r].Closing?
  }

  predicate Idle(s: State) {
    forall r | r in s.reloads :: s.reloads[r].Closing?
  }

  /** At most one reload is past its quit, however many there are. While there is none, one
      listener and one maintenance goroutine run if the last configuration parsed. The
      maintenance goroutine only ever runs while there is a ticker for it to read. */
  ghost predicate GoroutinesCounted(s: State) {
    && (forall a, b | Holds(s, a) && Holds(s, b) :: a == b)
    && (Idle(s) ==>
          && s.listeners == s.maintainers == One(s.parsed) && s.ticker == s.parsed
          && (!s.parsed ==> s.routes == {}))
    && (forall r | Holds(s, r) ::
          && s.listeners == 0
          && s.maintainers == One(s.reloads[r].Checking? || s.reloads[r].StoppingTicker?)
          && (s.maintainers > 0 ==> s.ticker)
          && (s.reloads[r].Loading? ==> !s.ticker && s.routes == {}))
  }

  predicate MessagesKept(s: State) {
    && |s.handed| + |s.queue| == |s.accepted|
    && s.queue == s.accepted[|s.handed|..]
    && (forall i | 0 <= i < |s.handed| :: s.handed[i] == Clean(s.accepted[i]))
    && |s.queue| <= QUEUE_CAPACITY
  }

  /** The step of reload `r` leaves all other reloads where they are. */
  lemma OthersStay(s: State, l: Label, t: State)
    requires ReloadStep(s, l) == Some(t)
    ensures forall q | q != l.r ::
              (q in t.reloads <==> q in s.reloads) && (q in s.reloads ==> t.reloads[q] == s.reloads[q])
  {
  }

  lemma IdleExactly(s: State)
    ensures Idle(s) <==> forall q :: !Holds(s, q)
  {
    if !Idle(s) {
      var r :| r in s.reloads && !s.reloads[r].Closing?;
      assert Holds(s, r);
    }
  }

  lemma CountedWith(s: State, r: nat)
    requires Holds(s, r) && forall q | Holds(s, q) :: q == r
    requires s.listeners == 0 && s.maintainers == One(s.reloads[r].Checking? || s.reloads[r].StoppingTicker?)
    requires s.maintainers > 0 ==> s.ticker
    requires s.reloads[r].Loading? ==> !s.ticker && s.routes == {}
    ensures GoroutinesCounted(s)
  {
    IdleExactly(s);
  }

  lemma CountedWithout(s: State)
    requires forall q :: !Holds(s, q)
    requires s.listeners == s.maintainers == One(s.parsed) && s.ticker == s.parsed && (!s.parsed ==> s.routes == {})
    ensures GoroutinesCounted(s)
  {
  }

  lemma HolderStep(s: State, l: Label, t: State)
    requires GoroutinesCounted(s) && ReloadStep(s, l) == Some(t) && Holds(s, l.r)
    ensures GoroutinesCounted(t)
  {
    OthersStay(s, l, t);
    forall q | Holds(t, q) ensures q == l.r {
      assert q != l.r ==> Holds(s, q);
    }
    if l.Load? {
      forall q ensures !Holds(t, q) {
        assert q == l.r ==> q !in t.reloads;
      }
      CountedWithout(t);
    } else {
      CountedWith(t, l.r);
    }
  }

  lemma CloserStep(s: State, l: Label, t: State)
    requires GoroutinesCounted(s) && ReloadStep(s, l) == Some(t) && !Holds(s, l.r)
    ensures GoroutinesCounted(t)
  {
    OthersStay(s, l, t);
    IdleExactly(s);
    if l.Quit? {
      forall q | Holds(t, q) ensures q == l.r {
        assert q != l.r ==> Holds(s, q);
      }
      CountedWith(t, l.r);
    } else {
      assert forall q :: Holds(t, q) <==> Holds(s, q);
      IdleExactly(t);
    }
  }

  lemma CountedStep(s: State, l: Label, t: State)
    requires GoroutinesCounted(s) && Step(s, l) == Some(t)
    ensures GoroutinesCounted(t)
  {
    if l.Accept? || l.Listen? || l.StartScheduler? {
      assert t.reloads == s.reloads;
      assert forall q :: Holds(t, q) <==> Holds(s, q);
    } else if Holds(s, l.r) {
      HolderStep(s, l, t);
    } else {
      CloserStep(s, l, t);
    }
  }

  lemma MessagesStep(s: State, l: Label, t: State)
    requires MessagesKept(s) && Step(s, l) == Some(t)
    ensures MessagesKept(t)
  {
  }

  lemma {:induction false} AlwaysCounted(s: State, labels: seq<Label>, t: State)
    requires GoroutinesCounted(s) && MessagesKept(s) && Run(s, labels) == Some(t)
    ensures GoroutinesCounted(t) && MessagesKept(t)
    decreases |labels|
  {
    if labels != [] {
      var u := Step(s, labels[0]).value;
      CountedStep(s, labels[0], u);
      MessagesStep(s, labels[0], u);
      AlwaysCounted(u, labels[1..], t);
    }
  }

  lemma InitiallyCounted()
    ensures GoroutinesCounted(INITIAL) && MessagesKept(INITIAL)
  {
    assert Holds(INITIAL, 0);
  }

  /** In every run, overlapping reloads included: at most one reload is past its quit, and
      unless there is one, a listener and a maintenance goroutine run if the last `load`
      parsed its configuration and none otherwise. */
  lemma GoroutinesMatchLastStart(labels: seq<Label>, s: State)
    requires Run(INITIAL, labels) == Some(s)
    ensures forall a, b | Holds(s, a) && Holds(s, b) :: a == b
    ensures Idle(s) ==> s.listeners == s.maintainers == One(s.parsed)
    ensures !Idle(s) ==> s.listeners == 0 && s.maintainers <= 1
    ensures s.maintainers > 0 ==> s.ticker
  {
    InitiallyCounted();
    AlwaysCounted(INITIAL, labels, s);
    if !Idle(s) {
      var r :| r in s.reloads && !s.reloads[r].Closing?;
      assert Holds(s, r);
    }
  }

  /** The message as it is handed over: single quotes for backticks, all else verbatim. */
  predicate HandedAs(accepted: string, handed: string) {
    && |handed| == |accepted|
    && (forall i | 0 <= i < |accepted| :: handed[i] == if accepted[i] == '`' then '\'' else accepted[i])
  }

  /** Across all reloads a message that `Send` took is still queued or was handed over once,
      in the order of arrival. */
  lemma MessagesSurviveReloads(labels: seq<Label>, s: State)
    requires Run(INITIAL, labels) == Some(s)
    ensures |s.handed| + |s.queue| == |s.accepted| && |s.queue| <= 1000
    ensures forall i | 0 <= i < |s.handed| :: HandedAs(s.accepted[i], s.handed[i])
    ensures forall i | 0 <= i < |s.queue| :: s.queue[i] == s.accepted[|s.handed| + i]
  {
    InitiallyCounted();
    AlwaysCounted(INITIAL, labels, s);
  }

  lemma AcceptedStep(s: State, l: Label, t: State)
    requires Step(s, l) == Some(t)
    ensures t.accepted == s.accepted + (if l.Accept? then [l.message] else [])
  {
  }

  lemma Regroup(a: seq<string>, b: seq<string>, c: seq<string>)
    ensures (a + b) + c == a + (b + c)
  {
  }

  /** The messages taken are those sent, in order. */
  lemma {:induction false} AcceptedInOrder(s: State, labels: seq<Label>, t: State)
    requires Run(s, labels) == Some(t)
    ensures t.accepted == s.accepted + Sent(labels)
    decreases |labels|
  {
    if labels == [] {
      assert s.accepted + [] == s.accepted;
    } else {
      var u := Step(s, labels[0]).value;
      AcceptedStep(s, labels[0], u);
      AcceptedInOrder(u, labels[1..], t);
      var first := if labels[0].Accept? then [labels[0].message] else [];
      assert Sent(labels) == first + Sent(labels[1..]);
      Regroup(s.accepted, first, Sent(labels[1..]));
    }
  }

  function Sent(labels: seq<Label>): seq<string> {
    if labels == [] then []
    else (if labels[0].Accept? then [labels[0].message] else []) + Sent(labels[1..])
  }

  // ---------- When a reload gets through ----------

  /** The last configuration did not parse and no reload is on its way to a better one. */
  predicate Dead(s: State) {
    Idle(s) && !s.parsed
  }

  lemma DeadStep(s: State, l: Label, t: State)
    requires GoroutinesCounted(s) && Dead(s) && Step(s, l) == Some(t)
    ensures Dead(t)
  {
    if l.Reload? || l.CloseRoute? {
      OthersStay(s, l, t);
    }
  }

  /** After a `Start` that failed no run of any number of reloads gives the router a listener
      again, and none gets past its quit. */
  lemma {:induction false} FailedStartIsFinal(s: State, labels: seq<Label>, t: State)
    requires GoroutinesCounted(s) && MessagesKept(s) && Dead(s) && Run(s, labels) == Some(t)
    ensures Dead(t) && t.listeners == 0
    decreases |labels|
  {
    if labels != [] {
      var u := Step(s, labels[0]).value;
      CountedStep(s, labels[0], u);
      MessagesStep(s, labels[0], u);
      DeadStep(s, labels[0], u);
      FailedStartIsFinal(u, labels[1..], t);
    }
  }

  function StepsLeft(phase: Phase): nat {
    match phase
    case Closing(todo) => 5 + |todo|
    case Checking => 4
    case StoppingTicker => 3
    case Resetting => 2
    case Loading => 1
  }

  /** What the reload does next; a load reads a good configuration without routes. */
  function NextLabel(s: State, r: nat): Label
    requires r in s.reloads && (s.reloads[r].Closing? ==> s.reloads[r].todo == {})
  {
    match s.reloads[r]
    case Closing(_) => Quit(r)
    case Checking => CheckTicker(r)
    case StoppingTicker => StopTicker(r)
    case Resetting => Reset(r)
    case Loading => Load(r, true, 0, {})
  }

  lemma HolderMoves(s: State, h: nat, r: nat) returns (t: State)
    requires GoroutinesCounted(s) && Holds(s, h) && r != h
    ensures Step(s, NextLabel(s, h)) == Some(t) && GoroutinesCounted(t)
    ensures r in s.reloads ==> r in t.reloads && t.reloads[r] == s.reloads[r]
    ensures if s.reloads[h].Loading? then Idle(t) && t.parsed
            else Holds(t, h) && StepsLeft(t.reloads[h]) < StepsLeft(s.reloads[h])
  {
    t := Step(s, NextLabel(s, h)).value;
    CountedStep(s, NextLabel(s, h), t);
    OthersStay(s, NextLabel(s, h), t);
    if s.reloads[h].Loading? {
      forall q | q in t.reloads ensures t.reloads[q].Closing? {
        assert q != h && (Holds(s, q) ==> q == h);
      }
    }
  }

  /** The reload that is past its quit can load a good configuration. */
  lemma {:induction false} HolderCanLoad(s: State, h: nat, r: nat) returns (labels: seq<Label>, t: State)
    requires GoroutinesCounted(s) && Holds(s, h) && r in s.reloads && r != h
    ensures Run(s, labels) == Some(t) && GoroutinesCounted(t) && Idle(t) && t.parsed
    ensures r in t.reloads && t.reloads[r] == s.reloads[r]
    decreases StepsLeft(s.reloads[h])
  {
    var u := HolderMoves(s, h, r);
    if s.reloads[h].Loading? {
      labels, t := [NextLabel(s, h)], u;
      assert Run(u, labels[1..]) == Some(u);
    } else {
      var rest;
      rest, t := HolderCanLoad(u, h, r);
      labels := [NextLabel(s, h)] + rest;
      assert labels[1..] == rest;
    }
  }

  /** With a listener running, a reload can close its schedulers and stop everything. */
  lemma {:induction false} TerminateCanComplete(s: State, r: nat) returns (labels: seq<Label>, t: State)
    requires GoroutinesCounted(s) && r in s.reloads && !s.reloads[r].Loading?
    requires s.reloads[r].Closing? ==> Idle(s) && s.parsed
    ensures Run(s, labels) == Some(t) && InPhase(t, r, Resetting)
    decreases StepsLeft(s.reloads[r])
  {
    if s.reloads[r].Resetting? {
      labels, t := [], s;
    } else {
      var l;
      if s.reloads[r].Closing? && s.reloads[r].todo != {} {
        var obj :| obj in s.reloads[r].todo;
        l := CloseRoute(r, obj);
      } else {
        l := NextLabel(s, r);
        assert Holds(s, r) || s.reloads[r].Closing?;
      }
      var u := Step(s, l).value;
      CountedStep(s, l, u);
      OthersStay(s, l, u);
      var rest;
      rest, t := TerminateCanComplete(u, r);
      labels := [l] + rest;
      assert labels[1..] == rest;
    }
  }

  ghost predicate CanComplete(s: State, r: nat) {
    exists more: seq<Label>, t: State :: Run(s, more) == Some(t) && InPhase(t, r, Resetting)
  }

  /** In every reachable state, a reload that waits for its quit can get through if and only
      if the last configuration parsed, or another reload is past its quit and yet to load
      one. So every reload after one with a broken configuration blocks for ever. */
  lemma TerminateCompletesExactly(labels: seq<Label>, s: State, r: nat)
    requires Run(INITIAL, labels) == Some(s) && r in s.reloads && s.reloads[r].Closing?
    ensures CanComplete(s, r) <==> s.parsed || exists h :: Holds(s, h)
  {
    InitiallyCounted();
    AlwaysCounted(INITIAL, labels, s);
    if !Idle(s) {
      var h :| h in s.reloads && !s.reloads[h].Closing?;
      assert Holds(s, h);
      var first, u := HolderCanLoad(s, h, r);
      var second, t := TerminateCanComplete(u, r);
      RunAppend(s, first, u, second);
    } else if s.parsed {
      var more, t := TerminateCanComplete(s, r);
    } else {
      forall more: seq<Label>, t: State | Run(s, more) == Some(t) ensures !InPhase(t, r, Resetting) {
        FailedStartIsFinal(s, more, t);
      }
    }
  }

  lemma RouterIsUp(count: nat, loaded: set<nat>) returns (labels: seq<Label>, s: State)
    requires forall o | o in loaded :: o < count
    ensures labels == [Reset(0), Load(0, true, count, loaded)] && Run(INITIAL, labels) == Some(s)
    ensures s.reloads == map[] && s.parsed && s.routes == loaded && s.objects == count
    ensures s.scheduling == map[] && s.channels == 0 && s.closes == []
  {
    var t := Step(INITIAL, Reset(0)).value;
    s := Step(t, Load(0, true, count, loaded)).value;
    RunOne(INITIAL, Reset(0));
    RunMore(INITIAL, [Reset(0)], t, Load(0, true, count, loaded));
    labels := [Reset(0)] + [Load(0, true, count, loaded)];
  }

  lemma FailedLoad(s: State, r: nat) returns (t: State)
    requires GoroutinesCounted(s) && InPhase(s, r, Resetting)
    ensures Run(s, [Reset(r), Load(r, false, 0, {})]) == Some(t) && GoroutinesCounted(t) && Dead(t)
    ensures MessagesKept(s) ==> MessagesKept(t)
  {
    var u := Step(s, Reset(r)).value;
    t := Step(u, Load(r, false, 0, {})).value;
    RunOne(s, Reset(r));
    RunMore(s, [Reset(r)], u, Load(r, false, 0, {}));
    assert [Reset(r)] + [Load(r, false, 0, {})] == [Reset(r), Load(r, false, 0, {})];
    CountedStep(s, Reset(r), u);
    CountedStep(u, Load(r, false, 0, {}), t);
    OthersStay(u, Load(r, false, 0, {}), t);
    assert Holds(u, r);
    forall q | q in t.reloads ensures t.reloads[q].Closing? {
      assert q != r && (Holds(u, q) ==> q == r);
    }
  }

  lemma ReloadUpToReset(s: State, r: nat) returns (labels: seq<Label>, t: State)
    requires GoroutinesCounted(s) && MessagesKept(s) && s.reloads == map[] && s.parsed
    ensures Run(s, [Reload(r)] + labels) == Some(t) && InPhase(t, r, Resetting)
    ensures GoroutinesCounted(t) && MessagesKept(t)
  {
    var u := Step(s, Reload(r)).value;
    CountedStep(s, Reload(r), u);
    labels, t := TerminateCanComplete(u, r);
    RunOne(s, Reload(r));
    RunAppend(s, [Reload(r)], u, labels);
    AlwaysCounted(u, labels, t);
  }

  /** One reload of a broken configuration does it, from the start of the program and with any
      routes. From then on no run gets a listener or a reload past its quit. */
  lemma BrokenReloadKillsRouter(count: nat, loaded: set<nat>, r: nat) returns (stop: seq<Label>, s: State)
    requires forall o | o in loaded :: o < count
    ensures Run(INITIAL, [Reset(0), Load(0, true, count, loaded)] + ([Reload(r)] + stop)
        + [Reset(r), Load(r, false, 0, {})])
         == Some(s)
    ensures Dead(s) && forall more, t | Run(s, more) == Some(t) :: Dead(t) && t.listeners == 0
  {
    var start, up := RouterIsUp(count, loaded);
    ReachedIsCounted(start, up);
    stop, s := BreakingReload(INITIAL, start, up, r);
    DeadForGood(s);
  }

  lemma BreakingReload(s: State, start: seq<Label>, up: State, r: nat) returns (stop: seq<Label>, t: State)
    requires Run(s, start) == Some(up) && GoroutinesCounted(up) && MessagesKept(up)
    requires up.reloads == map[] && up.parsed
    ensures Run(s, start + ([Reload(r)] + stop) + [Reset(r), Load(r, false, 0, {})]) == Some(t)
    ensures GoroutinesCounted(t) && MessagesKept(t) && Dead(t)
  {
    var u;
    stop, u := ReloadUpToReset(up, r);
    t := FailedLoad(u, r);
    RunThree(s, start, up, [Reload(r)] + stop, u, [Reset(r), Load(r, false, 0, {})]);
  }

  lemma ReachedIsCounted(labels: seq<Label>, s: State)
    requires Run(INITIAL, labels) == Some(s)
    ensures GoroutinesCounted(s) && MessagesKept(s)
  {
    InitiallyCounted();
    AlwaysCounted(INITIAL, labels, s);
  }

  lemma DeadForGood(s: State)
    requires GoroutinesCounted(s) && MessagesKept(s) && Dead(s)
    ensures forall more, t | Run(s, more) == Some(t) :: Dead(t) && t.listeners == 0
  {
    forall more, t | Run(s, more) == Some(t) ensures Dead(t) && t.listeners == 0 {
      FailedStartIsFinal(s, more, t);
    }
  }

  lemma RunThree(s: State, a: seq<Label>, t: State, b: seq<Label>, u: State, c: seq<Label>)
    requires Run(s, a) == Some(t) && Run(t, b) == Some(u)
    ensures Run(s, a + b + c) == Run(u, c)
  {
    RunAppend(s, a, t, b);
    RunAppend(s, a + b, u, c);
  }

  // ---------- Scheduler channels ----------

  predicate ToClose(s: State, r: nat, obj: nat) {
    r in s.reloads && s.reloads[r].Closing? && obj in s.reloads[r].todo
  }

  predicate Closed(s: State, obj: nat) {
    obj in s.scheduling && s.scheduling[obj] in s.closes
  }

  predicate NoRepeat(s: seq<nat>) {
    forall i, j | 0 <= i < j < |s| :: s[i] != s[j]
  }

  ghost predicate ChannelsNumbered(s: State) {
    && (forall o | o in s.routes :: o < s.objects)
    && (forall o | o in s.scheduling :: o < s.objects && s.scheduling[o] < s.channels)
    && (forall o, p | o in s.scheduling && p in s.scheduling && s.scheduling[o] == s.scheduling[p] :: o == p)
    && (forall c | c in s.closes :: c < s.channels)
  }

  /** No channel was closed twice, and none that a reload is about to close is closed or about
      to be closed by another reload. */
  ghost predicate ClosedOnce(s: State) {
    && ChannelsNumbered(s)
    && NoRepeat(s.closes)
    && (forall r, o | ToClose(s, r, o) :: !Closed(s, o))
    && (forall q, r, o | ToClose(s, q, o) && ToClose(s, r, o) :: q == r)
  }

  /** A reload that begins now finds a scheduler that another one has closed or will close. */
  ghost predicate TooSoon(s: State) {
    exists o :: o in s.routes && (Closed(s, o) || WithAnother(s, o))
  }

  ghost predicate WithAnother(s: State, obj: nat) {
    exists r :: ToClose(s, r, obj)
  }

  lemma NumberedStep(s: State, l: Label, t: State)
    requires ChannelsNumbered(s) && Step(s, l) == Some(t)
    ensures ChannelsNumbered(t)
  {
  }

  lemma ClosingStep(s: State, r: nat, obj: nat, t: State)
    requires ClosedOnce(s) && CloseStep(s, r, obj) == Some(t)
    ensures ClosedOnce(t)
  {
    NumberedStep(s, CloseRoute(r, obj), t);
    assert ToClose(s, r, obj);
    assert forall i | 0 <= i < |s.closes| :: s.closes[i] in s.closes;
    forall q, o | ToClose(t, q, o) ensures ToClose(s, q, o) && o != obj && !Closed(t, o) {
      assert ToClose(s, q, o) && (o == obj ==> q == r);
    }
  }

  lemma StartingStep(s: State, obj: nat, t: State)
    requires ClosedOnce(s) && Step(s, StartScheduler(obj)) == Some(t)
    ensures ClosedOnce(t)
  {
    NumberedStep(s, StartScheduler(obj), t);
    forall r, o | ToClose(t, r, o) ensures ToClose(s, r, o) && !Closed(t, o) {
      assert ToClose(s, r, o);
    }
  }

  lemma BeginningStep(s: State, r: nat, t: State)
    requires ClosedOnce(s) && Step(s, Reload(r)) == Some(t) && !TooSoon(s)
    ensures ClosedOnce(t)
  {
    forall q, o | ToClose(t, q, o) ensures !Closed(t, o) && if q == r then o in s.routes else ToClose(s, q, o) {
      assert q == r || ToClose(s, q, o);
    }
  }

  lemma QuietStep(s: State, l: Label, t: State)
    requires ClosedOnce(s) && Step(s, l) == Some(t) && !l.Reload? && !l.CloseRoute? && !l.StartScheduler?
    ensures ClosedOnce(t)
  {
    NumberedStep(s, l, t);
    forall r, o | ToClose(t, r, o) ensures ToClose(s, r, o) {
    }
  }

  lemma ClosedOnceStep(s: State, l: Label, t: State)
    requires ClosedOnce(s) && Step(s, l) == Some(t) && (l.Reload? ==> !TooSoon(s))
    ensures ClosedOnce(t)
  {
    match l
    case Reload(r) => BeginningStep(s, r, t);
    case CloseRoute(r, obj) => ClosingStep(s, r, obj, t);
    case StartScheduler(obj) => StartingStep(s, obj, t);
    case _ => QuietStep(s, l, t);
  }

  /** Every reload of the run begins when none is under way. */
  ghost predicate OneAtATime(s: State, labels: seq<Label>)
    requires Run(s, labels).Some?
    decreases |labels|
  {
    labels == [] || ((labels[0].Reload? ==> s.reloads == map[]) && OneAtATime(Step(s, labels[0]).value, labels[1..]))
  }

  /** Every reload of the run begins when it is not too soon. */
  ghost predicate Careful(s: State, labels: seq<Label>)
    requires Run(s, labels).Some?
    decreases |labels|
  {
    labels == [] || ((labels[0].Reload? ==> !TooSoon(s)) && Careful(Step(s, labels[0]).value, labels[1..]))
  }

  /** While one reload at most is under way, the schedulers of the current routes are open
      unless that one has seen to them. */
  ghost predicate Alone(s: State) {
    && ClosedOnce(s)
    && (forall q, r | q in s.reloads && r in s.reloads :: q == r)
    && (s.reloads == map[] ==> forall o | o in s.routes :: !Closed(s, o))
  }

  lemma RoutesOpen(s: State, l: Label, t: State)
    requires GoroutinesCounted(s) && Alone(s) && Step(s, l) == Some(t) && t.reloads == map[]
    ensures forall o | o in t.routes :: !Closed(t, o)
  {
    if l.Load? {
      assert Holds(s, l.r);
    } else {
      assert s.reloads == map[];
      assert forall o | o in s.routes :: !Closed(s, o);
    }
  }

  lemma StillOne(s: State, l: Label, t: State)
    requires (forall q, r | q in s.reloads && r in s.reloads :: q == r)
    requires Step(s, l) == Some(t) && (l.Reload? ==> s.reloads == map[])
    ensures forall q, r | q in t.reloads && r in t.reloads :: q == r
  {
    if l.Accept? || l.Listen? || l.StartScheduler? {
      assert t.reloads == s.reloads;
    } else {
      OthersStay(s, l, t);
    }
  }

  lemma AloneStep(s: State, l: Label, t: State)
    requires GoroutinesCounted(s) && Alone(s) && Step(s, l) == Some(t) && (l.Reload? ==> s.reloads == map[])
    ensures Alone(t) && (l.Reload? ==> !TooSoon(s))
  {
    if l.Reload? {
      forall o | o in s.routes ensures !Closed(s, o) && !WithAnother(s, o) {
      }
    }
    ClosedOnceStep(s, l, t);
    StillOne(s, l, t);
    if t.reloads == map[] { RoutesOpen(s, l, t); }
  }

  lemma {:induction false} AlwaysAlone(s: State, labels: seq<Label>, t: State)
    requires GoroutinesCounted(s) && Alone(s) && Run(s, labels) == Some(t) && OneAtATime(s, labels)
    ensures Alone(t) && Careful(s, labels)
    decreases |labels|
  {
    if labels != [] {
      var u := Step(s, labels[0]).value;
      CountedStep(s, labels[0], u);
      AloneStep(s, labels[0], u);
      AlwaysAlone(u, labels[1..], t);
    }
  }

  /** As long as reloads do not overlap no scheduler channel is closed twice, which would
      panic, whatever the handlers of current and replaced routes start in between. */
  lemma NoChannelClosedTwice(labels: seq<Label>, s: State)
    requires Run(INITIAL, labels) == Some(s) && OneAtATime(INITIAL, labels)
    ensures NoRepeat(s.closes) && Careful(INITIAL, labels)
  {
    InitiallyCounted();
    AlwaysAlone(INITIAL, labels, s);
  }

  lemma {:induction false} StaysClosedOnce(s: State, labels: seq<Label>, t: State)
    requires ClosedOnce(s) && Run(s, labels) == Some(t) && Careful(s, labels)
    ensures ClosedOnce(t)
    decreases |labels|
  {
    if labels != [] {
      var u := Step(s, labels[0]).value;
      ClosedOnceStep(s, labels[0], u);
      StaysClosedOnce(u, labels[1..], t);
    }
  }

  lemma {:induction false} NoReloadIsCareful(s: State, labels: seq<Label>, t: State)
    requires Run(s, labels) == Some(t) && forall l | l in labels :: !l.Reload?
    ensures Careful(s, labels)
    decreases |labels|
  {
    if labels != [] {
      assert labels[0] in labels;
      NoReloadIsCareful(Step(s, labels[0]).value, labels[1..], t);
    }
  }

  lemma RunOne(s: State, l: Label)
    requires Step(s, l).Some?
    ensures Run(s, [l]) == Step(s, l)
  {
    assert Run(Step(s, l).value, [l][1..]) == Step(s, l);
  }

  lemma RunMore(s: State, first: seq<Label>, t: State, l: Label)
    requires Run(s, first) == Some(t) && Step(t, l).Some?
    ensures Run(s, first + [l]) == Step(t, l)
  {
    RunAppend(s, first, t, [l]);
    RunOne(t, l);
  }

  lemma ClosedAgain(s: State, q: nat, o: nat, t: State)
    requires Closed(s, o) && CloseStep(s, q, o) == Some(t)
    ensures !NoRepeat(t.closes)
  {
    var i :| 0 <= i < |s.closes| && s.closes[i] == s.scheduling[o];
    assert t.closes[i] == t.closes[|s.closes|];
  }

  /** Two reloads that are both to close a scheduler do so. */
  lemma BothClose(s: State, q: nat, r: nat, o: nat) returns (more: seq<Label>, t: State)
    requires ChannelsNumbered(s) && q != r && ToClose(s, q, o) && ToClose(s, r, o) && o < s.objects
    ensures Run(s, more) == Some(t) && !NoRepeat(t.closes) && forall l | l in more :: !l.Reload?
  {
    var u := if o in s.scheduling then s else Step(s, StartScheduler(o)).value;
    more := if o in s.scheduling then [] else [StartScheduler(o)];
    if o !in s.scheduling { RunOne(s, StartScheduler(o)); }
    var v := Step(u, CloseRoute(r, o)).value;
    RunMore(s, more, u, CloseRoute(r, o));
    t := Step(v, CloseRoute(q, o)).value;
    RunMore(s, more + [CloseRoute(r, o)], v, CloseRoute(q, o));
    assert Closed(v, o) by { assert v.closes[|u.closes|] == v.scheduling[o]; }
    ClosedAgain(v, q, o, t);
    more := more + [CloseRoute(r, o)] + [CloseRoute(q, o)];
  }

  ghost predicate CanCloseTwice(s: State) {
    exists more: seq<Label>, t: State ::
      Run(s, more) == Some(t) && !NoRepeat(t.closes) && forall l | l in more :: !l.Reload?
  }

  /** The exact condition under which one more reload does harm, as long as those before it
      have done none: it finds a route whose scheduler another reload has closed or is yet to
      close. */
  lemma ReloadClosesTwiceExactly(labels: seq<Label>, s: State, q: nat, t: State)
    requires Run(INITIAL, labels) == Some(s) && Careful(INITIAL, labels)
    requires Step(s, Reload(q)) == Some(t)
    ensures CanCloseTwice(t) <==> TooSoon(s)
  {
    StaysClosedOnce(INITIAL, labels, s);
    if TooSoon(s) {
      var o :| o in s.routes && (Closed(s, o) || WithAnother(s, o));
      assert ToClose(t, q, o);
      if Closed(s, o) {
        var u := Step(t, CloseRoute(q, o)).value;
        RunOne(t, CloseRoute(q, o));
        ClosedAgain(t, q, o, u);
      } else {
        var r :| ToClose(s, r, o);
        var more, u := BothClose(t, q, r, o);
      }
    } else {
      BeginningStep(s, q, t);
      forall more: seq<Label>, u: State | Run(t, more) == Some(u) && forall l | l in more :: !l.Reload?
        ensures NoRepeat(u.closes)
      {
        NoReloadIsCareful(t, more, u);
        StaysClosedOnce(t, more, u);
      }
    }
  }

  /** Overlapping reloads do close a channel twice: from the start of the program, with any
      routes and a scheduler on any one of them. */
  lemma OverlappingReloadsCloseTwice(count: nat, loaded: set<nat>, obj: nat, q: nat, r: nat)
    returns (labels: seq<Label>, s: State, t: State)
    requires obj in loaded && (forall o | o in loaded :: o < count) && q != r
    ensures labels == [Reset(0), Load(0, true, count, loaded), StartScheduler(obj), Reload(q), Reload(r)]
    ensures Run(INITIAL, labels) == Some(s)
    ensures Run(s, [CloseRoute(q, obj), CloseRoute(r, obj)]) == Some(t) && !NoRepeat(t.closes)
  {
    var u;
    labels, u := RouterIsUp(count, loaded);
    var v := Step(u, StartScheduler(obj)).value;
    RunMore(INITIAL, labels, u, StartScheduler(obj));
    labels := labels + [StartScheduler(obj)];
    assert v.reloads == map[];
    var w := Step(v, Reload(q)).value;
    RunMore(INITIAL, labels, v, Reload(q));
    labels := labels + [Reload(q)];
    s := Step(w, Reload(r)).value;
    RunMore(INITIAL, labels, w, Reload(r));
    labels := labels + [Reload(r)];
    var x := Step(s, CloseRoute(q, obj)).value;
    t := Step(x, CloseRoute(r, obj)).value;
    RunOne(s, CloseRoute(q, obj));
    RunMore(s, [CloseRoute(q, obj)], x, CloseRoute(r, obj));
    assert [CloseRoute(q, obj)] + [CloseRoute(r, obj)] == [CloseRoute(q, obj), CloseRoute(r, obj)];
    assert Closed(x, obj) by { assert x.closes[0] == x.scheduling[obj]; }
    ClosedAgain(x, r, obj, t);
  }
}
