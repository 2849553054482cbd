/** The delivery worker: one pass over the due rows, one dispatch per row. */
module Worker {
  import opened Backoff
  import opened Domain
  import opened GoLib
  import opened Ordering
  import opened Tables

  datatype Options = Options(interval: int, batchSize: int, maxAttempt: int, baseDelay: int)

  /** New replaces every option that is not positive. */
  function Normalized(o: Options): (r: Options)
    ensures r.interval > 0 && r.batchSize > 0 && r.maxAttempt > 0 && r.baseDelay > 0
    ensures o.interval > 0 && o.batchSize > 0 && o.maxAttempt > 0 && o.baseDelay > 0 ==> r == o
    ensures (o.interval > 0 ==> r.interval == o.interval) && (o.batchSize > 0 ==> r.batchSize == o.batchSize)
    ensures (o.maxAttempt > 0 ==> r.maxAttempt == o.maxAttempt) && (o.baseDelay > 0 ==> r.baseDelay == o.baseDelay)
    ensures o == Options(0, 0, 0, 0) ==> r == Options(2_000_000_000, 100, 5, 1_000_000_000)
  {
    Options(
      if o.interval <= 0 then 2 * SECOND else o.interval,
      if o.batchSize <= 0 then 100 else o.batchSize,
      if o.maxAttempt <= 0 then 5 else o.maxAttempt,
      if o.baseDelay <= 0 then SECOND else o.baseDelay)
  }

  /** The status in a payload is always `routed`. */
  datatype Payload = Payload(
    eventId: string, deviceId: string, metric: string, value: Float, unit: string, ts: int, ruleId: string, topic: string)

  function PayloadOf(ev: Event, d: Delivery): Payload {
    Payload(ev.eventId, ev.deviceId, ev.metric, ev.value, ev.unit, ev.ts, d.ruleId, d.topic)
  }

  /** One call of the sink: for which delivery, in the pass of which time, with what, and how it ended. */
  datatype Call = Call(id: nat, at: int, topic: string, payload: Payload, error: Option<string>)

  /** The sink answers as it likes; what it was asked is recorded for the proofs. */
  class Sink {
    ghost var calls: seq<Call>

    constructor ()
      ensures calls == []
    {
      calls := [];
    }

    method Dispatch(topic: string, payload: Payload, ghost id: nat, ghost at: int) returns (error: Option<string>)
      modifies this
      ensures calls == old(calls) + [Call(id, at, topic, payload, error)]
    {
      error := *;
      calls := calls + [Call(id, at, topic, payload, error)];
    }
  }

  // ---------------------------------------------------------------- what a pass does

  /** The tables, and every call of the sink so far. */
  datatype Sys = Sys(db: DB, calls: seq<Call>)

  /** A delivery after its dispatch ended in the given way. */
  function Settled(o: Options, d: Delivery, now: int, error: Option<string>): Delivery {
    match error
    case None => Delivered(d, now)
    case Some(text) =>
      if d.attempts + 1 >= o.maxAttempt then Dead(d, text, now)
      else Failed(d, d.attempts + 1, text, now + Delay(o.baseDelay, d.attempts + 1))
  }

  /** The event's status afterwards: a delivery that ended overwrites it, a failed one does not. */
  function StatusAfter(o: Options, d: Delivery, error: Option<string>, status: EventStatus): EventStatus {
    match error
    case None => EventDispatched
    case Some(_) => if d.attempts + 1 >= o.maxAttempt then EventDeadLetter else status
  }

  function Dispatched(o: Options, s: Sys, d: Delivery, now: int, error: Option<string>): Sys
    requires d.id < |s.db.deliveries|
  {
    if d.eventId !in s.db.events then
      s.(db := s.db.(deliveries := s.db.deliveries[d.id := Dead(d, "event not found", now)]))
    else
      var ev := s.db.events[d.eventId];
      Sys(s.db.(deliveries := s.db.deliveries[d.id := Settled(o, d, now, error)],
                events := s.db.events[d.eventId := ev.(status := StatusAfter(o, d, error, ev.status))]),
          s.calls + [Call(d.id, now, d.topic, PayloadOf(ev, d), error)])
  }

  /** The rows of a batch, one after another; the errors say how each dispatch ends. */
  function RunBatch(o: Options, s: Sys, batch: seq<Delivery>, now: int, errors: seq<Option<string>>): (r: Sys)
    requires |errors| == |batch| && forall d :: d in batch ==> d.id < |s.db.deliveries|
    ensures |r.db.deliveries| == |s.db.deliveries|
  {
    if batch == [] then s
    else
      var n := |batch| - 1;
      Dispatched(o, RunBatch(o, s, batch[..n], now, errors[..n]), batch[n], now, errors[n])
  }

  /** A batch holds rows as they stand, each once. */
  lemma BatchRows(rows: seq<Delivery>, now: int, limit: int)
    requires Serial(rows)
    ensures
      var batch := Batch(rows, now, limit);
      && (forall d :: d in batch ==> d in rows && d.id < |rows| && rows[d.id] == d && Due(d, now))
      && (forall i, j :: 0 <= i < j < |batch| ==> batch[i].id != batch[j].id)
  {
    var batch, n := Batch(rows, now, limit), if limit <= 0 then 100 else limit;
    FirstOfIsLowest(DueBefore, DueRows(rows, now), n);
    forall d | d in batch ensures d in rows && d.id < |rows| && rows[d.id] == d && Due(d, now) {
      assert d in Elements(batch);
    }
    AscendingHasNoDuplicates(DueBefore, batch);
  }

  /** What a batch is: pending and failed rows whose time has come, by time and then by id, at most as many
      as the limit, or a hundred if it is not positive; and what is left out comes behind all of them. */
  lemma BatchListsDue(rows: seq<Delivery>, now: int, limit: int)
    requires Serial(rows)
    ensures
      var batch, n := Batch(rows, now, limit), if limit <= 0 then 100 else limit;
      && |batch| <= n && (forall d :: d in batch ==> d in rows && Waiting(d, now))
      && (forall i, j :: 0 <= i < j < |batch| ==> Earlier(batch[i], batch[j]))
      && forall e :: e in rows && Waiting(e, now) && e !in batch ==>
           |batch| == n && forall d :: d in batch ==> Earlier(d, e)
  {
    var batch, n := Batch(rows, now, limit), if limit <= 0 then 100 else limit;
    var due := DueRows(rows, now);
    FirstOfIsLowest(DueBefore, due, n);
    forall d ensures d in due <==> d in rows && Waiting(d, now) {
    }
    forall d | d in batch ensures d in due {
      assert d in Elements(batch);
    }
    forall e | e in due && e !in batch ensures |batch| == n {
      if |due| < n {
        AllTaken(batch, due, e);
      }
    }
  }

  lemma AllTaken(batch: seq<Delivery>, due: set<Delivery>, e: Delivery)
    requires Elements(batch) <= due && |Elements(batch)| == |due| && e in due
    ensures e in batch
  {
    if e !in batch {
      SubsetIsSmaller(Elements(batch), due - {e});
    }
  }

  lemma {:induction false} SubsetIsSmaller(a: set<Delivery>, b: set<Delivery>)
    requires a <= b
    ensures |a| <= |b|
    decreases |a|
  {
    if x :| x in a {
      SubsetIsSmaller(a - {x}, b - {x});
    }
  }

  predicate Waiting(d: Delivery, now: int) {
    (d.status.DeliveryPending? || d.status.DeliveryFailed?) && d.nextRetryAt.Some? && d.nextRetryAt.value <= now
  }

  predicate Earlier(d: Delivery, e: Delivery) {
    && d.nextRetryAt.Some? && e.nextRetryAt.Some?
    && (d.nextRetryAt.value < e.nextRetryAt.value || (d.nextRetryAt.value == e.nextRetryAt.value && d.id < e.id))
  }

  /** One pass of the worker. */
  ghost function Pass(o: Options, s: Sys, now: int, errors: seq<Option<string>>): Sys
    requires Serial(s.db.deliveries) && |errors| == |Batch(s.db.deliveries, now, o.batchSize)|
  {
    BatchRows(s.db.deliveries, now, o.batchSize);
    RunBatch(o, s, Batch(s.db.deliveries, now, o.batchSize), now, errors)
  }

  // ---------------------------------------------------------------- the code

  class Worker {
    const store: Store
    const sink: Sink
    const opts: Options

    constructor (store: Store, sink: Sink, opts: Options)
      ensures this.store == store && this.sink == sink && this.opts == Normalized(opts)
    {
      this.store, this.sink, this.opts := store, sink, Normalized(opts);
    }

    ghost function View(): Sys
      reads store, sink
    {
      Sys(store.View(), sink.calls)
    }

    method ProcessOnce(now: int) returns (ghost errors: seq<Option<string>>)
      requires Serial(store.deliveries)
      modifies store`deliveries, store`events, sink
      ensures |errors| == |Batch(old(store.deliveries), now, opts.batchSize)|
      ensures View() == Pass(opts, old(View()), now, errors)
    {
      var due := store.ListDueDeliveries(now, opts.batchSize);
      errors := [];
      ghost var before := View();
      BatchRows(store.deliveries, now, opts.batchSize);
      for i := 0 to |due|
        invariant |errors| == i && View() == RunBatch(opts, before, due[..i], now, errors)
        invariant |store.deliveries| == |before.db.deliveries|
        invariant forall j :: i <= j < |due| ==> store.deliveries[due[j].id] == due[j]
      {
        ghost var error := DispatchOne(due[i], now);
        errors := errors + [error];
        assert due[..i + 1][..i] == due[..i] && errors[..i] + [error] == errors;
        assert errors[..i] == errors[..|errors| - 1];
      }
      assert due[..|due|] == due;
    }

    method DispatchOne(d: Delivery, now: int) returns (ghost error: Option<string>)
      requires d.id < |store.deliveries| && store.deliveries[d.id] == d
      modifies store`deliveries, store`events, sink
      ensures View() == Dispatched(opts, old(View()), d, now, error)
    {
      error := None;
      if d.eventId !in store.events {
        store.MarkDead(d.id, "event not found", now);
        return;
      }
      var ev := store.events[d.eventId];
      var err := sink.Dispatch(d.topic, PayloadOf(ev, d), d.id, now);
      error := err;
      if err.Some? {
        HandleFailure(d, ev, now, err.value);
        return;
      }
      store.MarkDelivered(d.id, now);
      store.UpdateEventStatus(d.eventId, EventDispatched);
    }

    method HandleFailure(d: Delivery, ev: Event, now: int, text: string)
      requires d.id < |store.deliveries| && store.deliveries[d.id] == d
      requires d.eventId in store.events && store.events[d.eventId] == ev
      modifies store`deliveries, store`events
      ensures store.deliveries == old(store.deliveries)[d.id := Settled(opts, d, now, Some(text))]
      ensures store.events == old(store.events)[d.eventId := ev.(status := StatusAfter(opts, d, Some(text), ev.status))]
    {
      var attempt := d.attempts + 1;
      if attempt >= opts.maxAttempt {
        store.MarkDead(d.id, text, now);
        store.UpdateEventStatus(d.eventId, EventDeadLetter);
        return;
      }
      var delay := ComputeDelay(opts.baseDelay, attempt);
      store.MarkFailed(d.id, attempt, text, now + delay);
      assert store.events == old(store.events)[d.eventId := ev];
    }
  }
}
