/** Every pass that finds due work uses some of it up, whatever the sink answers. */
module Drain {
  import opened DeliveryHistory
  import opened Domain
  import opened GoLib
  import opened Ordering
  import opened Tables
  import opened Worker

  /** The dispatches a delivery may still cost. */
  function Debt(max: int, d: Delivery): nat {
    if Open(d) && d.attempts < max then max - d.attempts else 0
  }

  function Work(max: int, rows: seq<Delivery>): nat {
    if rows == [] then 0 else Work(max, rows[..|rows| - 1]) + Debt(max, rows[|rows| - 1])
  }

  lemma {:induction false} WorkUpdate(max: int, rows: seq<Delivery>, i: nat, d: Delivery)
    requires i < |rows|
    ensures Work(max, rows[i := d]) == Work(max, rows) - Debt(max, rows[i]) + Debt(max, d)
  {
    var n := |rows| - 1;
    if i == n {
      assert rows[i := d][..n] == rows[..n];
    } else {
      WorkUpdate(max, rows[..n], i, d);
      assert rows[i := d][..n] == rows[..n][i := d];
    }
  }

  lemma DispatchPays(o: Options, s: Sys, d: Delivery, now: int, error: Option<string>)
    requires Recorded(o, s)
    requires d.id < |s.db.deliveries| && s.db.deliveries[d.id] == d && Open(d)
    ensures
      var r := Dispatched(o, s, d, now, error);
      && |r.calls| == |s.calls| + 1
      && Work(o.maxAttempt, r.db.deliveries) < Work(o.maxAttempt, s.db.deliveries)
  {
    DispatchedRows(o, s, d, now, error);
    WorkUpdate(o.maxAttempt, s.db.deliveries, d.id, Settled(o, d, now, error));
    assert d in s.db.deliveries;
  }

  /** A batch calls the sink once for each row, and takes at least as much off the work. */
  lemma {:induction false} BatchPays(o: Options, s: Sys, batch: seq<Delivery>, now: int, errors: seq<Option<string>>)
    requires Recorded(o, s) && Fresh(s.db.deliveries, batch) && |errors| == |batch|
    ensures
      var r := RunBatch(o, s, batch, now, errors);
      && |r.calls| == |s.calls| + |batch|
      && Work(o.maxAttempt, r.db.deliveries) + |batch| <= Work(o.maxAttempt, s.db.deliveries)
    decreases |batch|
  {
    if batch != [] {
      var n := |batch| - 1;
      var r := RunBatch(o, s, batch[..n], now, errors[..n]);
      BatchPays(o, s, batch[..n], now, errors[..n]);
      BatchKeeps(o, s, batch[..n], now, errors[..n]);
      NextIsFresh(o, s, batch, now, errors);
      DispatchPays(o, r, batch[n], now, errors[n]);
      assert RunBatch(o, s, batch, now, errors) == Dispatched(o, r, batch[n], now, errors[n]);
    }
  }

  // ---------------------------------------------------------------- passes in a row

  datatype Tick = Tick(now: int, errors: seq<Option<string>>)

  ghost predicate Fits(o: Options, s: Sys, tick: Tick)
    requires Serial(s.db.deliveries)
  {
    |tick.errors| == |Batch(s.db.deliveries, tick.now, o.batchSize)|
  }

  ghost predicate AllFit(o: Options, s: Sys, ticks: seq<Tick>)
    requires Recorded(o, s)
    decreases |ticks|
  {
    ticks != [] ==>
      && Fits(o, s, ticks[0])
      && (PassKeeps(o, s, ticks[0].now, ticks[0].errors);
          AllFit(o, Pass(o, s, ticks[0].now, ticks[0].errors), ticks[1..]))
  }

  ghost function After(o: Options, s: Sys, ticks: seq<Tick>): (r: Sys)
    requires Recorded(o, s) && AllFit(o, s, ticks)
    ensures Recorded(o, r)
    decreases |ticks|
  {
    if ticks == [] then s
    else
      PassKeeps(o, s, ticks[0].now, ticks[0].errors);
      After(o, Pass(o, s, ticks[0].now, ticks[0].errors), ticks[1..])
  }

  /** The passes that find due work. */
  ghost function BusyPasses(o: Options, s: Sys, ticks: seq<Tick>): nat
    requires Recorded(o, s) && AllFit(o, s, ticks)
    decreases |ticks|
  {
    if ticks == [] then 0
    else
      PassKeeps(o, s, ticks[0].now, ticks[0].errors);
      (if Batch(s.db.deliveries, ticks[0].now, o.batchSize) == [] then 0 else 1) +
      BusyPasses(o, Pass(o, s, ticks[0].now, ticks[0].errors), ticks[1..])
  }

  /** The work left when the passes begin bounds the calls of the sink they make, and so the passes that
      find due work, however long they go on. */
  lemma {:induction false} WorkBoundsCalls(o: Options, s: Sys, ticks: seq<Tick>)
    requires Recorded(o, s) && AllFit(o, s, ticks)
    ensures
      var r := After(o, s, ticks);
      && BusyPasses(o, s, ticks) <= |r.calls| - |s.calls|
      && |r.calls| - |s.calls| + Work(o.maxAttempt, r.db.deliveries) <= Work(o.maxAttempt, s.db.deliveries)
    decreases |ticks|
  {
    if ticks != [] {
      var now, errors := ticks[0].now, ticks[0].errors;
      BatchIsFresh(s.db.deliveries, now, o.batchSize);
      BatchPays(o, s, Batch(s.db.deliveries, now, o.batchSize), now, errors);
      PassKeeps(o, s, now, errors);
      WorkBoundsCalls(o, Pass(o, s, now, errors), ticks[1..]);
    }
  }

  ghost predicate AnyOpen(rows: seq<Delivery>) {
    exists d :: d in rows && Open(d)
  }

  /** The clock has passed the stamp of every open row. */
  ghost predicate AllDue(rows: seq<Delivery>, now: int) {
    forall d :: d in rows && Open(d) ==> Due(d, now)
  }

  ghost predicate AllDueEachTime(o: Options, s: Sys, ticks: seq<Tick>)
    requires Recorded(o, s) && AllFit(o, s, ticks)
    decreases |ticks|
  {
    ticks != [] ==>
      && AllDue(s.db.deliveries, ticks[0].now)
      && (PassKeeps(o, s, ticks[0].now, ticks[0].errors);
          AllDueEachTime(o, Pass(o, s, ticks[0].now, ticks[0].errors), ticks[1..]))
  }

  lemma BusyBatch(o: Options, rows: seq<Delivery>, now: int)
    requires Serial(rows) && AnyOpen(rows) && AllDue(rows, now)
    ensures Batch(rows, now, o.batchSize) != []
  {
    var d :| d in rows && Open(d);
    var n := if o.batchSize <= 0 then 100 else o.batchSize;
    FirstOfIsLowest(DueBefore, DueRows(rows, now), n);
    assert d in DueRows(rows, now);
  }

  lemma OpenOwes(o: Options, d: Delivery, answers: seq<Answer>)
    requires o.maxAttempt >= 1 && RowFits(o, d, answers) && Open(d)
    ensures Debt(o.maxAttempt, d) > 0
  {
  }

  lemma OneOwes(max: int, rows: seq<Delivery>, i: nat)
    requires i < |rows| && Debt(max, rows[i]) > 0
    ensures Work(max, rows) > 0
  {
    WorkUpdate(max, rows, i, rows[i].(status := DeliveryDead));
  }

  lemma OpenRowsWork(o: Options, s: Sys)
    requires Recorded(o, s) && AnyOpen(s.db.deliveries)
    ensures Work(o.maxAttempt, s.db.deliveries) > 0
  {
    var d :| d in s.db.deliveries && Open(d);
    var i :| 0 <= i < |s.db.deliveries| && s.db.deliveries[i] == d;
    OpenOwes(o, d, AnswersTo(s.calls, i));
    OneOwes(o.maxAttempt, s.db.deliveries, i);
  }

  lemma PassOpensNothing(o: Options, s: Sys, now: int, errors: seq<Option<string>>)
    requires Recorded(o, s) && Fits(o, s, Tick(now, errors)) && !AnyOpen(s.db.deliveries)
    ensures !AnyOpen(Pass(o, s, now, errors).db.deliveries)
  {
    PassOnlySettles(o, s, now, errors);
    var after := Pass(o, s, now, errors).db.deliveries;
    forall d | d in after ensures !Open(d) {
      var i :| 0 <= i < |after| && after[i] == d;
      assert s.db.deliveries[i] in s.db.deliveries;
    }
  }

  /** With no new rows and a clock that keeps passing every stamp, as many passes as there is work end
      every delivery. */
  lemma {:induction false} Drains(o: Options, s: Sys, ticks: seq<Tick>)
    requires Recorded(o, s) && AllFit(o, s, ticks) && AllDueEachTime(o, s, ticks)
    requires |ticks| >= Work(o.maxAttempt, s.db.deliveries) || !AnyOpen(s.db.deliveries)
    ensures !AnyOpen(After(o, s, ticks).db.deliveries)
    decreases |ticks|
  {
    if ticks == [] {
      if AnyOpen(s.db.deliveries) {
        OpenRowsWork(o, s);
      }
    } else {
      var now, errors := ticks[0].now, ticks[0].errors;
      BatchIsFresh(s.db.deliveries, now, o.batchSize);
      BatchPays(o, s, Batch(s.db.deliveries, now, o.batchSize), now, errors);
      if AnyOpen(s.db.deliveries) {
        BusyBatch(o, s.db.deliveries, now);
      } else {
        PassOpensNothing(o, s, now, errors);
      }
      PassKeeps(o, s, now, errors);
      Drains(o, Pass(o, s, now, errors), ticks[1..]);
    }
  }
}
