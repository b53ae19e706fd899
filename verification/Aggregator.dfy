/** The persistent queue of scans of each route: scans wait in it until a count or a
    drain releases them as one batch. */
module Aggregator {
  import opened Wrappers
  import Bucket

  type Scan = map<string, string>

  datatype AggregateError = KeyRequired

  // ---------- Specification of one call ----------

  function List<T>(o: Option<T>): seq<T> {
    match o case Some(x) => [x] case None => []
  }

  /** The queue after a call and the batch it releases, if any. The newest scan goes in
      front; a call that ignores the quantity only ever adds. */
  function Aggregate<T>(queue: seq<T>, scan: Option<T>, scansPerTicket: nat, ignoreTheQuantity: bool)
    : (seq<T>, Option<seq<T>>)
  {
    var all := List(scan) + queue;
    if ignoreTheQuantity || |all| < scansPerTicket then (all, None) else ([], Some(all))
  }

  function QueueOf<T>(queues: map<string, seq<T>>, route: string): seq<T> {
    if route in queues then queues[route] else []
  }

  /** A scan without any property is not added. */
  function NonEmpty(scan: Scan): Option<Scan> {
    if |scan| > 0 then Some(scan) else None
  }

  class AggregatorDb {
    const queues: Bucket.Bucket<seq<Scan>>

    ghost predicate Valid()
      reads this, queues
    {
      queues.Valid()
    }

    constructor ()
      ensures Valid() && fresh(queues) && queues.entries == map[]
    {
      queues := new Bucket.Bucket();
    }

    /** One call is one critical section. It fails, and changes nothing, exactly when the
        output has no name. Otherwise a scan that has properties goes in front of the queue,
        and the whole is kept or released. */
    method AggregateScans(output: string, currentScan: Scan, scansPerTicket: nat, ignoreTheQuantity: bool)
      returns (r: Result<Option<seq<Scan>>, AggregateError>)
      requires Valid()
      modifies queues
      ensures Valid()
      ensures r.Err? <==> output == ""
      ensures r.Err? ==> queues.entries == old(queues.entries)
      ensures r.Ok? ==>
                var (pending, released) := Aggregate(QueueOf(old(queues.entries), output), NonEmpty(currentScan),
                                                     scansPerTicket, ignoreTheQuantity);
                r.value == released && queues.entries == old(queues.entries)[output := pending]
      ensures r.Ok? ==>
                var all := (if |currentScan| > 0 then [currentScan] else []) + QueueOf(old(queues.entries), output);
                if ignoreTheQuantity || |all| < scansPerTicket
                then r.value.None? && queues.entries == old(queues.entries)[output := all]
                else r.value == Some(all) && queues.entries == old(queues.entries)[output := []]
    {
      queues.CreateIfNotExists();
      var aggregatedScans: seq<Scan> := [];
      if |currentScan| > 0 {
        aggregatedScans := aggregatedScans + [currentScan];
      }
      var currentValue := queues.Select(output);
      if currentValue.Some? {
        aggregatedScans := aggregatedScans + currentValue.value;
      }
      assert aggregatedScans == List(NonEmpty(currentScan)) + QueueOf(queues.entries, output);
      if ignoreTheQuantity || |aggregatedScans| < scansPerTicket {
        var ok := queues.Insert(output, aggregatedScans);
        return if ok then Ok(None) else Err(KeyRequired);
      }
      var ok := queues.Insert(output, []);
      return if ok then Ok(Some(aggregatedScans)) else Err(KeyRequired);
    }
  }

  // ---------- Runs ----------

  datatype Call<T> = Call(route: string, scan: Option<T>, scansPerTicket: nat, ignoreTheQuantity: bool)

  ghost function Effect<T>(queues: map<string, seq<T>>, c: Call<T>): (seq<T>, Option<seq<T>>) {
    Aggregate(QueueOf(queues, c.route), c.scan, c.scansPerTicket, c.ignoreTheQuantity)
  }

  /** The queues after a run of calls from an empty database. */
  ghost function After<T>(calls: seq<Call<T>>): map<string, seq<T>> {
    if calls == [] then map[] else
      var c := calls[|calls| - 1];
      var before := After(calls[..|calls| - 1]);
      if c.route == "" then before else before[c.route := Effect(before, c).0]
  }

  /** The scans the run added to a route, in order. */
  ghost function Arrivals<T>(calls: seq<Call<T>>, route: string): seq<T> {
    if calls == [] then [] else
      var c := calls[|calls| - 1];
      Arrivals(calls[..|calls| - 1], route)
      + (if c.route == route && route != "" then List(c.scan) else [])
  }

  /** The batches the run released for a route, in order. */
  ghost function Batches<T>(calls: seq<Call<T>>, route: string): seq<seq<T>> {
    if calls == [] then [] else
      var c := calls[|calls| - 1];
      var before := calls[..|calls| - 1];
      Batches(before, route)
      + (if c.route == route && route != "" then List(Effect(After(before), c).1) else [])
  }

  function Reverse<T>(s: seq<T>): seq<T> {
    if s == [] then [] else Reverse(s[1..]) + [s[0]]
  }

  /** Each batch reversed, one after the other. */
  function Unroll<T>(batches: seq<seq<T>>): seq<T> {
    if batches == [] then [] else Unroll(batches[..|batches| - 1]) + Reverse(batches[|batches| - 1])
  }

  lemma AggregateConserves<T>(queue: seq<T>, scan: Option<T>, scansPerTicket: nat, ignoreTheQuantity: bool)
    ensures var (pending, released) := Aggregate(queue, scan, scansPerTicket, ignoreTheQuantity);
            Reverse(queue) + List(scan) == Unroll(List(released)) + Reverse(pending)
  {
    var all := List(scan) + queue;
    if scan.Some? {
      assert all[1..] == queue;
    } else {
      assert all == queue;
    }
    assert Reverse(all) == Reverse(queue) + List(scan);
    assert Unroll([all]) == Unroll([all][..0]) + Reverse(all);
  }

  lemma UnrollAppend<T>(batches: seq<seq<T>>, released: Option<seq<T>>)
    ensures Unroll(batches + List(released)) == Unroll(batches) + Unroll(List(released))
  {
    match released
    case None =>
      assert batches + [] == batches;
    case Some(batch) =>
      assert (batches + [batch])[..|batches|] == batches;
      assert Unroll([batch]) == Unroll([batch][..0]) + Reverse(batch);
  }

  lemma Regroup<T>(a: seq<T>, b: seq<T>, c: seq<T>, d: seq<T>, e: seq<T>)
    requires b + c == d + e
    ensures (a + b) + c == (a + d) + e
  {
    assert (a + b) + c == a + (b + c) && (a + d) + e == a + (d + e);
  }

  lemma AggregateKeepsOrder<T>(arrived: seq<T>, batches: seq<seq<T>>, queue: seq<T>, scan: Option<T>,
                               scansPerTicket: nat, ignoreTheQuantity: bool)
    requires arrived == Unroll(batches) + Reverse(queue)
    ensures var (pending, released) := Aggregate(queue, scan, scansPerTicket, ignoreTheQuantity);
            arrived + List(scan) == Unroll(batches + List(released)) + Reverse(pending)
  {
    var (pending, released) := Aggregate(queue, scan, scansPerTicket, ignoreTheQuantity);
    AggregateConserves(queue, scan, scansPerTicket, ignoreTheQuantity);
    UnrollAppend(batches, released);
    Regroup(Unroll(batches), Reverse(queue), List(scan), Unroll(List(released)), Reverse(pending));
  }

  /** Whatever the mix of count-mode adds, timed adds and drains on all routes, nothing is
      lost, doubled or reordered: the released batches, each read backwards, and then the
      pending queue read backwards are the arrivals of the route. */
  lemma {:induction false} ArrivalsAreBatchesThenPending<T>(calls: seq<Call<T>>, route: string)
    ensures Arrivals(calls, route) == Unroll(Batches(calls, route)) + Reverse(QueueOf(After(calls), route))
  {
    if calls != [] {
      var before, c := calls[..|calls| - 1], calls[|calls| - 1];
      ArrivalsAreBatchesThenPending(before, route);
      if c.route == route && route != "" {
        AggregateKeepsOrder(Arrivals(before, route), Batches(before, route), QueueOf(After(before), route),
                            c.scan, c.scansPerTicket, c.ignoreTheQuantity);
      } else {
        assert Arrivals(calls, route) == Arrivals(before, route);
        assert Batches(calls, route) == Batches(before, route);
      }
    }
  }

  ghost function CallsOn<T>(calls: seq<Call<T>>, route: string): seq<Call<T>> {
    if calls == [] then [] else
      var c := calls[|calls| - 1];
      CallsOn(calls[..|calls| - 1], route) + (if c.route == route then [c] else [])
  }

  /** Routes do not interfere: what a route queues and releases is what it would queue and
      release if the calls on all other routes were left out. */
  lemma {:induction false} RoutesAreIndependent<T>(calls: seq<Call<T>>, route: string)
    ensures QueueOf(After(calls), route) == QueueOf(After(CallsOn(calls, route)), route)
    ensures Batches(calls, route) == Batches(CallsOn(calls, route), route)
  {
    if calls != [] {
      var before, c := calls[..|calls| - 1], calls[|calls| - 1];
      RoutesAreIndependent(before, route);
      if c.route == route {
        var own := CallsOn(calls, route);
        assert own[..|own| - 1] == CallsOn(before, route) && own[|own| - 1] == c;
      } else {
        assert CallsOn(calls, route) == CallsOn(before, route);
      }
    }
  }

  /** Count mode with a fixed threshold: every batch is full, and less than a batch waits. */
  lemma {:induction false} CountModeBatchesAreFull<T>(calls: seq<Call<T>>, route: string, threshold: nat)
    requires threshold >= 1
    requires forall c | c in calls && c.route == route :: c.scansPerTicket == threshold && !c.ignoreTheQuantity
    ensures forall i | 0 <= i < |Batches(calls, route)| :: |Batches(calls, route)[i]| == threshold
    ensures |QueueOf(After(calls), route)| < threshold
  {
    if calls != [] {
      var before := calls[..|calls| - 1];
      CountModeBatchesAreFull(before, route, threshold);
      assert calls[|calls| - 1] in calls;
    }
  }

  /** A drain leaves nothing pending and releases everything that was. */
  lemma DrainEmptiesTheQueue<T>(calls: seq<Call<T>>, route: string)
    requires route != ""
    ensures var after := calls + [Call(route, None, 0, false)];
            && QueueOf(After(after), route) == []
            && Batches(after, route) == Batches(calls, route) + [QueueOf(After(calls), route)]
  {
    var drain: Call<T> := Call(route, None, 0, false);
    var after := calls + [drain];
    assert after[..|after| - 1] == calls;
    assert [] + QueueOf(After(calls), route) == QueueOf(After(calls), route);
  }
}
