/** No delivery starves: what is due, with the weight k of open rows ahead of it, is dispatched within
    k / BatchSize + 1 passes, whatever else happens in between. */
module Fairness {
  import opened Backoff
  import opened DeliveryHistory
  import opened Domain
  import opened GoLib
  import opened Ordering
  import opened System
  import opened Tables
  import Drain
  import W = Worker

  /** Row j is open and comes before row i. */
  predicate Before(rows: seq<Delivery>, j: nat, i: nat)
    requires i < |rows| && j < |rows|
  {
    Open(rows[j]) && DueBefore(rows[j], rows[i])
  }

  /** How often a row may be taken before a later one: once where a retry lies in the future, and as often
      as it has attempts left where the backoff wraps and a retry may be stamped in the past. */
  function Weight(o: W.Options, d: Delivery): nat {
    if 0 < o.baseDelay < TWO_62 then 1 else Drain.Debt(o.maxAttempt, d)
  }

  function Part(o: W.Options, rows: seq<Delivery>, i: nat, j: nat): nat
    requires i < |rows| && j < |rows|
  {
    if Before(rows, j, i) then Weight(o, rows[j]) else 0
  }

  /** The weight of the open rows that come before row i, among the first n. */
  function Ahead(o: W.Options, rows: seq<Delivery>, i: nat, n: nat): nat
    requires i < |rows| && n <= |rows|
  {
    if n == 0 then 0 else Ahead(o, rows, i, n - 1) + Part(o, rows, i, n - 1)
  }

  predicate Waits(rows: seq<Delivery>, i: nat, stamp: int) {
    i < |rows| && Open(rows[i]) && rows[i].nextRetryAt == Some(stamp)
  }

  /** The step is a pass that takes row i. */
  ghost predicate Takes(c: Config, s: W.Sys, op: Op, i: nat)
    requires WellFormed(s.db)
  {
    op.WorkerPass? && i < |s.db.deliveries| && s.db.deliveries[i] in Batch(s.db.deliveries, op.now, c.opts.batchSize)
  }

  // ---------------------------------------------------------------- steps other than passes

  lemma {:induction false} NoMoreAhead(o: W.Options, rows: seq<Delivery>, more: seq<Delivery>, i: nat, n: nat)
    requires i < |rows| <= |more| && more[..|rows|] == rows && n <= |more|
    requires forall j: nat :: |rows| <= j < |more| ==> !Before(more, j, i)
    ensures Ahead(o, more, i, n) == Ahead(o, rows, i, if n <= |rows| then n else |rows|)
  {
    assert more[i] == rows[i];
    if n > 0 {
      NoMoreAhead(o, rows, more, i, n - 1);
      assert n <= |rows| ==> more[n - 1] == rows[n - 1];
    }
  }

  lemma ExtensionKeepsAhead(o: W.Options, db: DB, r: DB, now: int, i: nat, stamp: int)
    requires Serial(db.deliveries) && Extends(db, r, now) && Waits(db.deliveries, i, stamp) && stamp <= now
    ensures Waits(r.deliveries, i, stamp) && r.deliveries[i] == db.deliveries[i]
    ensures Ahead(o, r.deliveries, i, |r.deliveries|) == Ahead(o, db.deliveries, i, |db.deliveries|)
  {
    assert r.deliveries[..|db.deliveries|][i] == r.deliveries[i];
    NoMoreAhead(o, db.deliveries, r.deliveries, i, |r.deliveries|);
  }

  // ---------------------------------------------------------------- passes

  /** A pass that leaves a due row out fills its batch with rows ahead of it. */
  lemma LeftOut(c: Config, s: W.Sys, now: int, i: nat, stamp: int)
    requires Recorded(c.opts, s) && Waits(s.db.deliveries, i, stamp) && stamp <= now && c.opts.batchSize > 0
    requires s.db.deliveries[i] !in Batch(s.db.deliveries, now, c.opts.batchSize)
    ensures |Batch(s.db.deliveries, now, c.opts.batchSize)| == c.opts.batchSize
    ensures forall d :: d in Batch(s.db.deliveries, now, c.opts.batchSize) ==> DueBefore(d, s.db.deliveries[i])
  {
    var rows := s.db.deliveries;
    RankedIsAscending(DueBefore, DueRows(rows, now));
    FirstOfIsLowest(DueBefore, DueRows(rows, now), c.opts.batchSize);
    assert rows[i] in DueRows(rows, now);
  }

  function IdsIn(batch: seq<Delivery>): (ids: set<nat>) {
    set d | d in batch :: d.id
  }

  lemma {:induction false} IdsCount(batch: seq<Delivery>)
    requires forall i, j :: 0 <= i < j < |batch| ==> batch[i].id != batch[j].id
    ensures |IdsIn(batch)| == |batch|
  {
    if batch != [] {
      var n := |batch| - 1;
      IdsCount(batch[..n]);
      assert batch == batch[..n] + [batch[n]];
      assert IdsIn(batch) == IdsIn(batch[..n]) + {batch[n].id};
    }
  }

  /** What was taken is closed, due later than the pass, or has fewer attempts left. */
  lemma SettledWeighsLess(o: W.Options, d: Delivery, now: int, error: Option<string>, answers: seq<Answer>, i: Delivery)
    requires o.maxAttempt >= 1 && RowFits(o, d, answers) && Open(d) && Stamp(i) <= now
    ensures
      var r := W.Settled(o, d, now, error);
      (if Open(r) && DueBefore(r, i) then Weight(o, r) else 0) + 1 <= Weight(o, d)
  {
    if 0 < o.baseDelay < TWO_62 {
      DelayClosedForm(o.baseDelay, d.attempts + 1);
    }
  }

  lemma TakenWeighsLess(c: Config, s: W.Sys, now: int, errors: seq<Option<string>>, i: nat, stamp: int, j: nat)
    requires Recorded(c.opts, s) && Waits(s.db.deliveries, i, stamp) && stamp <= now
    requires |errors| == |Batch(s.db.deliveries, now, c.opts.batchSize)|
    requires s.db.deliveries[i] !in Batch(s.db.deliveries, now, c.opts.batchSize)
    requires j < |s.db.deliveries| && s.db.deliveries[j] in Batch(s.db.deliveries, now, c.opts.batchSize)
    ensures
      var rows := W.Pass(c.opts, s, now, errors).db.deliveries;
      i < |rows| && j < |rows| && Part(c.opts, rows, i, j) + 1 <= Weight(c.opts, s.db.deliveries[j])
  {
    var batch, d := Batch(s.db.deliveries, now, c.opts.batchSize), s.db.deliveries[j];
    BatchIsFresh(s.db.deliveries, now, c.opts.batchSize);
    UntakenStays(c, s, now, errors, i);
    var k :| 0 <= k < |batch| && batch[k] == d;
    BatchSettles(c.opts, s, batch, now, errors, k);
    SettledWeighsLess(c.opts, d, now, errors[k], AnswersTo(s.calls, d.id), s.db.deliveries[i]);
  }

  lemma UntakenStays(c: Config, s: W.Sys, now: int, errors: seq<Option<string>>, j: nat)
    requires Recorded(c.opts, s) && j < |s.db.deliveries|
    requires |errors| == |Batch(s.db.deliveries, now, c.opts.batchSize)|
    requires s.db.deliveries[j] !in Batch(s.db.deliveries, now, c.opts.batchSize)
    ensures
      var rows := W.Pass(c.opts, s, now, errors).db.deliveries;
      j < |rows| && rows[j] == s.db.deliveries[j]
  {
    var batch := Batch(s.db.deliveries, now, c.opts.batchSize);
    BatchIsFresh(s.db.deliveries, now, c.opts.batchSize);
    BatchFrame(c.opts, s, batch, now, errors, j);
  }

  /** How many of the numbers below n are in the set. */
  function Below(ids: set<nat>, n: nat): nat {
    if n == 0 then 0 else Below(ids, n - 1) + (if n - 1 in ids then 1 else 0)
  }

  lemma {:induction false} BelowWithout(ids: set<nat>, n: nat, m: nat)
    requires n <= m
    ensures Below(ids - {m}, n) == Below(ids, n)
  {
    if n > 0 {
      BelowWithout(ids, n - 1, m);
    }
  }

  lemma {:induction false} AllBelow(ids: set<nat>, n: nat)
    requires forall id :: id in ids ==> id < n
    ensures Below(ids, n) == |ids|
  {
    if n > 0 {
      AllBelow(ids - {n - 1}, n - 1);
      BelowWithout(ids, n - 1, n - 1);
    } else {
      assert ids == {};
    }
  }

  /** A pass that leaves row i out brings it forward by a whole batch. */
  lemma PassBringsForward(c: Config, s: W.Sys, now: int, errors: seq<Option<string>>, i: nat, stamp: int)
    requires Recorded(c.opts, s) && c.opts.batchSize > 0
    requires |errors| == |Batch(s.db.deliveries, now, c.opts.batchSize)|
    requires Waits(s.db.deliveries, i, stamp) && stamp <= now
    requires s.db.deliveries[i] !in Batch(s.db.deliveries, now, c.opts.batchSize)
    ensures
      var rows := W.Pass(c.opts, s, now, errors).db.deliveries;
      && Waits(rows, i, stamp) && rows[i] == s.db.deliveries[i]
      && Ahead(c.opts, rows, i, |rows|) + c.opts.batchSize <= Ahead(c.opts, s.db.deliveries, i, |s.db.deliveries|)
  {
    var rows, batch := s.db.deliveries, Batch(s.db.deliveries, now, c.opts.batchSize);
    UntakenStays(c, s, now, errors, i);
    LeftOut(c, s, now, i, stamp);
    W.BatchRows(rows, now, c.opts.batchSize);
    IdsCount(batch);
    AllBelow(IdsIn(batch), |rows|);
    PassOnlySettles(c.opts, s, now, errors);
    var after := W.Pass(c.opts, s, now, errors).db.deliveries;
    forall j: nat | j < |rows| ensures PartFalls(c.opts, rows, after, i, IdsIn(batch), j) {
      PartAfterPass(c, s, now, errors, i, stamp, j);
    }
    AheadFalls(c.opts, rows, after, i, IdsIn(batch), |rows|);
  }

  /** Position j weighs no more than before, and less if it is among the given ones. */
  predicate PartFalls(o: W.Options, rows: seq<Delivery>, after: seq<Delivery>, i: nat, ids: set<nat>, j: nat)
    requires i < |rows| == |after| && j < |rows|
  {
    Part(o, after, i, j) + (if j in ids then 1 else 0) <= Part(o, rows, i, j)
  }

  lemma {:induction false} AheadFalls(o: W.Options, rows: seq<Delivery>, after: seq<Delivery>, i: nat, ids: set<nat>, n: nat)
    requires i < |rows| == |after| && n <= |rows|
    requires forall j: nat :: j < n ==> PartFalls(o, rows, after, i, ids, j)
    ensures Ahead(o, after, i, n) + Below(ids, n) <= Ahead(o, rows, i, n)
  {
    if n > 0 {
      AheadFalls(o, rows, after, i, ids, n - 1);
      assert PartFalls(o, rows, after, i, ids, n - 1);
    }
  }

  lemma PartAfterPass(c: Config, s: W.Sys, now: int, errors: seq<Option<string>>, i: nat, stamp: int, j: nat)
    requires Recorded(c.opts, s) && c.opts.batchSize > 0
    requires |errors| == |Batch(s.db.deliveries, now, c.opts.batchSize)|
    requires Waits(s.db.deliveries, i, stamp) && stamp <= now && j < |s.db.deliveries|
    requires s.db.deliveries[i] !in Batch(s.db.deliveries, now, c.opts.batchSize)
    ensures
      var after := W.Pass(c.opts, s, now, errors).db.deliveries;
      && |after| == |s.db.deliveries|
      && PartFalls(c.opts, s.db.deliveries, after, i, IdsIn(Batch(s.db.deliveries, now, c.opts.batchSize)), j)
  {
    var rows, batch := s.db.deliveries, Batch(s.db.deliveries, now, c.opts.batchSize);
    W.BatchRows(rows, now, c.opts.batchSize);
    PassOnlySettles(c.opts, s, now, errors);
    UntakenStays(c, s, now, errors, i);
    if rows[j] in batch {
      LeftOut(c, s, now, i, stamp);
      TakenWeighsLess(c, s, now, errors, i, stamp, j);
    } else {
      UntakenStays(c, s, now, errors, j);
    }
  }

  // ---------------------------------------------------------------- runs

  function Passes(ops: seq<Op>): nat {
    if ops == [] then 0 else (if ops[0].WorkerPass? then 1 else 0) + Passes(ops[1..])
  }

  /** No step is stamped earlier than the waiting row. */
  predicate NotBefore(ops: seq<Op>, stamp: int) {
    forall op :: op in ops ==> op.EditDevices? || op.now >= stamp
  }

  lemma CanRunPrefix(c: Config, s: W.Sys, ops: seq<Op>, n: nat)
    requires Inv(c, s) && CanRun(c, s, ops) && n <= |ops|
    ensures CanRun(c, s, ops[..n])
    decreases |ops|
  {
    if n > 0 {
      StepKeeps(c, s, ops[0]);
      CanRunPrefix(c, Step(c, s, ops[0]), ops[1..], n - 1);
      assert ops[..n][0] == ops[0] && ops[..n][1..] == ops[1..][..n - 1];
    }
  }

  /** After n steps row i is as it was, and the next step is a pass that takes it. */
  ghost predicate TakenAfter(c: Config, s: W.Sys, ops: seq<Op>, i: nat, n: nat)
    requires Inv(c, s) && CanRun(c, s, ops)
  {
    && n < |ops|
    && CanRun(c, s, ops[..n])
    && var before := RunFrom(c, s, ops[..n]).db;
       && i < |s.db.deliveries| && i < |before.deliveries| && before.deliveries[i] == s.db.deliveries[i]
       && Takes(c, RunFrom(c, s, ops[..n]), ops[n], i)
  }

  lemma PassesOfPrefix(ops: seq<Op>, n: nat)
    requires ops != [] && n < |ops|
    ensures Passes(ops[..n + 1]) == (if ops[0].WorkerPass? then 1 else 0) + Passes(ops[1..][..n])
  {
    assert ops[..n + 1][0] == ops[0] && ops[..n + 1][1..] == ops[1..][..n];
  }

  lemma RunOneLater(c: Config, s: W.Sys, ops: seq<Op>, n: nat)
    requires Inv(c, s) && CanRun(c, s, ops) && ops != [] && n < |ops|
    requires Inv(c, Step(c, s, ops[0])) && CanRun(c, Step(c, s, ops[0]), ops[1..][..n])
    ensures CanRun(c, s, ops[..n + 1])
    ensures RunFrom(c, s, ops[..n + 1]) == RunFrom(c, Step(c, s, ops[0]), ops[1..][..n])
  {
    CanRunPrefix(c, s, ops, n + 1);
    assert ops[..n + 1][0] == ops[0] && ops[..n + 1][1..] == ops[1..][..n];
  }

  lemma TakenOneLater(c: Config, s: W.Sys, ops: seq<Op>, i: nat, n: nat)
    requires Inv(c, s) && CanRun(c, s, ops) && ops != []
    requires i < |s.db.deliveries| && i < |Step(c, s, ops[0]).db.deliveries|
    requires Step(c, s, ops[0]).db.deliveries[i] == s.db.deliveries[i]
    requires Inv(c, Step(c, s, ops[0])) && TakenAfter(c, Step(c, s, ops[0]), ops[1..], i, n)
    ensures TakenAfter(c, s, ops, i, n + 1)
  {
    RunOneLater(c, s, ops, n);
    assert ops[n + 1] == ops[1..][n];
  }

  /** A step that does not take row i leaves it waiting; a pass brings it one batch nearer. */
  lemma StepBringsForward(c: Config, s: W.Sys, op: Op, i: nat, stamp: int)
    requires Inv(c, s) && CanStep(c, s, op) && c.opts.batchSize > 0
    requires Waits(s.db.deliveries, i, stamp) && (op.EditDevices? || op.now >= stamp) && !Takes(c, s, op, i)
    ensures
      var rows := Step(c, s, op).db.deliveries;
      && Waits(rows, i, stamp) && rows[i] == s.db.deliveries[i]
      && Ahead(c.opts, rows, i, |rows|) + (if op.WorkerPass? then c.opts.batchSize else 0) <=
         Ahead(c.opts, s.db.deliveries, i, |s.db.deliveries|)
  {
    if op.WorkerPass? {
      PassBringsForward(c, s, op.now, op.errors, i, stamp);
    } else {
      var now := if op.EditDevices? then stamp else op.now;
      OtherStepExtends(c, s, op, now);
      ExtensionKeepsAhead(c.opts, s.db, DbStep(c, s.db, op), now, i, stamp);
    }
  }

  /** The passes that row i may have to wait. */
  function Bound(c: Config, rows: seq<Delivery>, i: nat): nat
    requires i < |rows| && c.opts.batchSize > 0
  {
    Ahead(c.opts, rows, i, |rows|) / c.opts.batchSize
  }

  lemma BoundFalls(c: Config, rows: seq<Delivery>, after: seq<Delivery>, i: nat, isPass: bool)
    requires i < |rows| && i < |after| && c.opts.batchSize > 0
    requires
      Ahead(c.opts, after, i, |after|) + (if isPass then c.opts.batchSize else 0) <= Ahead(c.opts, rows, i, |rows|)
    ensures Bound(c, after, i) + (if isPass then 1 else 0) <= Bound(c, rows, i)
  {
    var a, k, b := Ahead(c.opts, after, i, |after|), Ahead(c.opts, rows, i, |rows|), c.opts.batchSize;
    if isPass {
      OneBatchLess(a, k, b);
    } else {
      QuotientGrows(a, k, b);
    }
  }

  /** A waiting row with the weight k ahead of it is taken before k / BatchSize + 1 passes have gone by,
      for every BaseDelay. */
  lemma {:induction false} NoStarvation(c: Config, s: W.Sys, ops: seq<Op>, i: nat, stamp: int) returns (n: nat)
    requires Inv(c, s) && CanRun(c, s, ops) && c.opts.batchSize > 0
    requires Waits(s.db.deliveries, i, stamp) && NotBefore(ops, stamp)
    requires Passes(ops) >= Bound(c, s.db.deliveries, i) + 1
    ensures TakenAfter(c, s, ops, i, n) && Passes(ops[..n]) <= Bound(c, s.db.deliveries, i)
    decreases |ops|
  {
    var op := ops[0];
    assert op in ops;
    if Takes(c, s, op, i) {
      n := 0;
    } else {
      StepKeeps(c, s, op);
      StepBringsForward(c, s, op, i, stamp);
      BoundFalls(c, s.db.deliveries, Step(c, s, op).db.deliveries, i, op.WorkerPass?);
      var m := NoStarvation(c, Step(c, s, op), ops[1..], i, stamp);
      n := m + 1;
      assert TakenAfter(c, s, ops, i, n) by {
        TakenOneLater(c, s, ops, i, m);
      }
      PassesOfPrefix(ops, m);
    }
  }

  lemma OneBatchLess(a: nat, k: nat, b: int)
    requires b > 0 && a + b <= k
    ensures a / b + 1 <= k / b
  {
    var q, d := a / b, k / b;
    assert a == q * b + a % b && k == d * b + k % b;
    assert (q + 1) * b == q * b + b && (d + 1) * b == d * b + b;
    TimesCancels(q + 1, d + 1, b);
  }

  lemma QuotientGrows(a: nat, k: nat, b: int)
    requires b > 0 && a <= k
    ensures a / b <= k / b
  {
    var q, d := a / b, k / b;
    assert a == q * b + a % b && k == d * b + k % b;
    assert (d + 1) * b == d * b + b;
    TimesCancels(q, d + 1, b);
  }

  lemma TimesCancels(x: int, y: int, b: int)
    requires b > 0 && x * b < y * b
    ensures x < y
  {
    if y <= x {
      TimesGrows(y, x, b);
    }
  }

  lemma TimesGrows(x: int, y: int, b: int)
    requires b > 0 && x <= y
    ensures x * b <= y * b
  {
    assert (y - x) * b >= 0;
  }

  /** A taken row gets its next answer. */
  lemma TakenIsAnswered(c: Config, s: W.Sys, op: Op, i: nat)
    requires Inv(c, s) && CanStep(c, s, op) && Takes(c, s, op, i)
    ensures exists error :: Step(c, s, op).db.deliveries[i] == W.Settled(c.opts, s.db.deliveries[i], op.now, error)
  {
    var batch := Batch(s.db.deliveries, op.now, c.opts.batchSize);
    BatchIsFresh(s.db.deliveries, op.now, c.opts.batchSize);
    var k :| 0 <= k < |batch| && batch[k] == s.db.deliveries[i];
    BatchSettles(c.opts, s, batch, op.now, op.errors, k);
  }
}
