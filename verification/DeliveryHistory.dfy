/** What the delivery and event tables say, in terms of how the sink answered: every row is the
    record of its own dispatches, every event shows the last delivery that ended. */
module DeliveryHistory {
  import opened Backoff
  import opened Domain
  import opened GoLib
  import opened Tables
  import opened Worker

  /** How a dispatch ended, and the time of its pass. */
  datatype Answer = Answer(at: int, error: Option<string>)

  /** How the dispatches of one delivery ended, oldest first. */
  function AnswersTo(calls: seq<Call>, id: nat): seq<Answer> {
    if calls == [] then []
    else
      var n := |calls| - 1;
      AnswersTo(calls[..n], id) + (if calls[n].id == id then [Answer(calls[n].at, calls[n].error)] else [])
  }

  /** The last call settles its delivery for good: it succeeded, or it was the last one allowed. */
  predicate LastCallEnds(max: int, calls: seq<Call>)
    requires calls != []
  {
    var last := calls[|calls| - 1];
    last.error.None? || |AnswersTo(calls, last.id)| >= max
  }

  /** `created` until a delivery of the event ends; then what the last one to end came to. */
  function EventOutcome(max: int, calls: seq<Call>, eventId: string): EventStatus {
    if calls == [] then EventCreated
    else
      var n := |calls| - 1;
      if calls[n].payload.eventId == eventId && LastCallEnds(max, calls) then
        if calls[n].error.None? then EventDispatched else EventDeadLetter
      else EventOutcome(max, calls[..n], eventId)
  }

  function StatusOf(max: int, answers: seq<Answer>): DeliveryStatus {
    if answers == [] then DeliveryPending
    else if Last(answers).error.None? then DeliveryDispatched
    else if |answers| >= max then DeliveryDead
    else DeliveryFailed
  }

  /** A row is the record of the answers it got: nothing came after a success, nothing after the last
      attempt, and the row says how often, with which error, when it ended or when it is due again. */
  predicate RowFits(o: Options, d: Delivery, answers: seq<Answer>) {
    && |answers| <= o.maxAttempt
    && (forall i :: 0 <= i < |answers| - 1 ==> answers[i].error.Some?)
    && d.status == StatusOf(o.maxAttempt, answers)
    && d.attempts == (if d.status.DeliveryDead? then |answers| - 1 else |answers|)
    && d.lastError == (if answers == [] || Last(answers).error.None? then "" else Last(answers).error.value)
    && (d.status.DeliveryPending? ==> d.nextRetryAt.Some?)
    && (d.status.DeliveryFailed? ==> d.nextRetryAt == Some(Last(answers).at + Delay(o.baseDelay, |answers|)))
    && (!Open(d) ==> d.nextRetryAt.None?)
    && d.dispatchedAt == (if Open(d) || answers == [] then None else Some(Last(answers).at))
  }

  /** A call was made for a known row, with that row's topic and its event's content. */
  predicate CallFits(db: DB, c: Call) {
    && c.id < |db.deliveries|
    && var d := db.deliveries[c.id];
       d.eventId in db.events && c.topic == d.topic && c.payload == PayloadOf(db.events[d.eventId], d)
  }

  predicate EventKeys(db: DB) {
    forall k :: k in db.events ==> db.events[k].eventId == k
  }

  predicate RowsHaveEvents(db: DB) {
    forall d :: d in db.deliveries ==> d.eventId in db.events
  }

  ghost predicate CallsFit(s: Sys) {
    forall c :: c in s.calls ==> CallFits(s.db, c)
  }

  ghost predicate RowsFit(o: Options, s: Sys) {
    forall i :: 0 <= i < |s.db.deliveries| ==> RowFits(o, s.db.deliveries[i], AnswersTo(s.calls, i))
  }

  ghost predicate EventsFit(max: int, s: Sys) {
    forall k :: k in s.db.events ==> s.db.events[k].status == EventOutcome(max, s.calls, k)
  }

  ghost predicate Recorded(o: Options, s: Sys) {
    && o.maxAttempt >= 1
    && Serial(s.db.deliveries) && EventKeys(s.db) && RowsHaveEvents(s.db)
    && CallsFit(s) && RowsFit(o, s) && EventsFit(o.maxAttempt, s)
  }

  /** What the sink was told in a call: the topic and the rule of the delivery, and the event as it came in. */
  lemma CallsSay(o: Options, s: Sys, c: Call)
    requires Recorded(o, s) && c in s.calls
    ensures
      && c.id < |s.db.deliveries|
      && var d := s.db.deliveries[c.id];
         && d.eventId in s.db.events
         && var e := s.db.events[d.eventId];
            && c.topic == d.topic
            && c.payload == Payload(d.eventId, e.deviceId, e.metric, e.value, e.unit, e.ts, d.ruleId, d.topic)
  {
  }

  // ---------------------------------------------------------------- one dispatch

  lemma AnswersGrow(calls: seq<Call>, c: Call, id: nat)
    ensures AnswersTo(calls + [c], id) == AnswersTo(calls, id) + (if c.id == id then [Answer(c.at, c.error)] else [])
  {
    assert (calls + [c])[..|calls|] == calls;
  }

  lemma OutcomeGrows(max: int, calls: seq<Call>, c: Call, eventId: string)
    ensures
      EventOutcome(max, calls + [c], eventId) ==
        if c.payload.eventId == eventId && (c.error.None? || |AnswersTo(calls, c.id)| + 1 >= max) then
          if c.error.None? then EventDispatched else EventDeadLetter
        else EventOutcome(max, calls, eventId)
  {
    AnswersGrow(calls, c, c.id);
    assert (calls + [c])[..|calls|] == calls;
  }

  lemma SettledFits(o: Options, d: Delivery, now: int, error: Option<string>, answers: seq<Answer>)
    requires o.maxAttempt >= 1 && RowFits(o, d, answers) && Open(d)
    ensures d.attempts == |answers| < o.maxAttempt
    ensures RowFits(o, Settled(o, d, now, error), answers + [Answer(now, error)])
  {
    var more := answers + [Answer(now, error)];
    assert Last(more) == Answer(now, error);
  }

  lemma DispatchKeepsRow(o: Options, s: Sys, d: Delivery, now: int, error: Option<string>, i: nat)
    requires o.maxAttempt >= 1 && RowsHaveEvents(s.db) && i < |s.db.deliveries|
    requires d.id < |s.db.deliveries| && s.db.deliveries[d.id] == d && Open(d)
    requires RowFits(o, s.db.deliveries[i], AnswersTo(s.calls, i))
    ensures
      var r := Dispatched(o, s, d, now, error);
      RowFits(o, r.db.deliveries[i], AnswersTo(r.calls, i))
  {
    var r := Dispatched(o, s, d, now, error);
    DispatchedRows(o, s, d, now, error);
    AnswersGrow(s.calls, r.calls[|s.calls|], i);
    if i == d.id {
      SettledFits(o, d, now, error, AnswersTo(s.calls, i));
    }
  }

  lemma DispatchKeepsRows(o: Options, s: Sys, d: Delivery, now: int, error: Option<string>)
    requires Recorded(o, s)
    requires d.id < |s.db.deliveries| && s.db.deliveries[d.id] == d && Open(d)
    ensures RowsFit(o, Dispatched(o, s, d, now, error))
  {
    var r := Dispatched(o, s, d, now, error);
    forall i | 0 <= i < |r.db.deliveries| ensures RowFits(o, r.db.deliveries[i], AnswersTo(r.calls, i)) {
      DispatchKeepsRow(o, s, d, now, error, i);
    }
  }

  lemma DispatchKeepsEvent(o: Options, s: Sys, d: Delivery, now: int, error: Option<string>, k: string)
    requires d.id < |s.db.deliveries| && d.eventId in s.db.events && k in s.db.events
    requires s.db.events[d.eventId].eventId == d.eventId && |AnswersTo(s.calls, d.id)| == d.attempts
    requires s.db.events[k].status == EventOutcome(o.maxAttempt, s.calls, k)
    ensures
      var r := Dispatched(o, s, d, now, error);
      r.db.events[k].status == EventOutcome(o.maxAttempt, r.calls, k)
  {
    var r := Dispatched(o, s, d, now, error);
    OutcomeGrows(o.maxAttempt, s.calls, r.calls[|s.calls|], k);
  }

  lemma DispatchKeepsEvents(o: Options, s: Sys, d: Delivery, now: int, error: Option<string>)
    requires Recorded(o, s)
    requires d.id < |s.db.deliveries| && s.db.deliveries[d.id] == d && Open(d)
    ensures EventsFit(o.maxAttempt, Dispatched(o, s, d, now, error))
  {
    var r := Dispatched(o, s, d, now, error);
    assert d in s.db.deliveries;
    SettledFits(o, d, now, error, AnswersTo(s.calls, d.id));
    forall k | k in r.db.events ensures r.db.events[k].status == EventOutcome(o.maxAttempt, r.calls, k) {
      DispatchKeepsEvent(o, s, d, now, error, k);
    }
  }

  lemma DispatchKeepsCalls(o: Options, s: Sys, d: Delivery, now: int, error: Option<string>)
    requires Recorded(o, s)
    requires d.id < |s.db.deliveries| && s.db.deliveries[d.id] == d && Open(d)
    ensures CallsFit(Dispatched(o, s, d, now, error))
  {
    var r := Dispatched(o, s, d, now, error);
    forall c | c in r.calls ensures CallFits(r.db, c) {
      if c in s.calls {
        assert CallFits(s.db, c);
      }
    }
  }

  lemma DispatchKeeps(o: Options, s: Sys, d: Delivery, now: int, error: Option<string>)
    requires Recorded(o, s)
    requires d.id < |s.db.deliveries| && s.db.deliveries[d.id] == d && Open(d)
    ensures Recorded(o, Dispatched(o, s, d, now, error))
  {
    DispatchKeepsRows(o, s, d, now, error);
    DispatchKeepsEvents(o, s, d, now, error);
    DispatchKeepsCalls(o, s, d, now, error);
    DispatchKeepsLinks(o, s, d, now, error);
  }

  lemma DispatchKeepsLinks(o: Options, s: Sys, d: Delivery, now: int, error: Option<string>)
    requires Serial(s.db.deliveries) && EventKeys(s.db) && RowsHaveEvents(s.db)
    requires d.id < |s.db.deliveries| && s.db.deliveries[d.id] == d
    ensures
      var r := Dispatched(o, s, d, now, error).db;
      Serial(r.deliveries) && EventKeys(r) && RowsHaveEvents(r)
  {
    assert d in s.db.deliveries;
  }

  // ---------------------------------------------------------------- one pass

  /** The rows of a batch as a pass meets them: open, current and each once. */
  ghost predicate Fresh(rows: seq<Delivery>, batch: seq<Delivery>) {
    && (forall d :: d in batch ==> d.id < |rows| && rows[d.id] == d && Open(d))
    && (forall i, j :: 0 <= i < j < |batch| ==> batch[i].id != batch[j].id)
  }

  /** A row outside the batch stays as it is. */
  lemma {:induction false} BatchFrame(o: Options, s: Sys, batch: seq<Delivery>, now: int, errors: seq<Option<string>>, id: nat)
    requires |errors| == |batch| && (forall d :: d in batch ==> d.id < |s.db.deliveries|)
    requires id < |s.db.deliveries| && forall d :: d in batch ==> d.id != id
    ensures RunBatch(o, s, batch, now, errors).db.deliveries[id] == s.db.deliveries[id]
    decreases |batch|
  {
    if batch != [] {
      var n := |batch| - 1;
      assert batch[n] in batch;
      BatchFrame(o, s, batch[..n], now, errors[..n], id);
    }
  }

  /** When the last row of a batch has its turn, it still stands as it was listed. */
  lemma NextIsFresh(o: Options, s: Sys, batch: seq<Delivery>, now: int, errors: seq<Option<string>>)
    requires Fresh(s.db.deliveries, batch) && |errors| == |batch| > 0
    ensures
      var n := |batch| - 1;
      var d, rows := batch[n], RunBatch(o, s, batch[..n], now, errors[..n]).db.deliveries;
      d.id < |rows| && rows[d.id] == d && Open(d)
  {
    var n := |batch| - 1;
    assert batch[n] in batch;
    BatchFrame(o, s, batch[..n], now, errors[..n], batch[n].id);
  }

  lemma {:induction false} BatchKeeps(o: Options, s: Sys, batch: seq<Delivery>, now: int, errors: seq<Option<string>>)
    requires Recorded(o, s) && Fresh(s.db.deliveries, batch) && |errors| == |batch|
    ensures Recorded(o, RunBatch(o, s, batch, now, errors))
    decreases |batch|
  {
    if batch != [] {
      var n := |batch| - 1;
      BatchKeeps(o, s, batch[..n], now, errors[..n]);
      NextIsFresh(o, s, batch, now, errors);
      var r := RunBatch(o, s, batch[..n], now, errors[..n]);
      DispatchKeeps(o, r, batch[n], now, errors[n]);
      assert RunBatch(o, s, batch, now, errors) == Dispatched(o, r, batch[n], now, errors[n]);
    }
  }

  /** A pass moves no row and relabels none. */
  ghost predicate SameShape(rows: seq<Delivery>, others: seq<Delivery>) {
    && |rows| == |others|
    && forall i :: 0 <= i < |rows| ==>
         && rows[i].id == others[i].id && rows[i].eventId == others[i].eventId
         && rows[i].ruleId == others[i].ruleId && rows[i].topic == others[i].topic
  }

  predicate SameEvents(events: map<string, Event>, others: map<string, Event>) {
    && others.Keys == events.Keys
    && forall k :: k in events ==> others[k] == events[k].(status := others[k].status)
  }

  lemma EventSettles(events: map<string, Event>, others: map<string, Event>, k: string, status: EventStatus)
    requires SameEvents(events, others) && k in others
    ensures SameEvents(events, others[k := others[k].(status := status)])
  {
  }

  /** Nor does it open a row, or change an event beyond its status. */
  ghost predicate OnlySettles(db: DB, r: DB) {
    && SameShape(db.deliveries, r.deliveries)
    && (forall i :: 0 <= i < |r.deliveries| && Open(r.deliveries[i]) ==> Open(db.deliveries[i]))
    && SameEvents(db.events, r.events)
    && r == db.(deliveries := r.deliveries, events := r.events)
  }

  lemma DispatchOnlySettles(o: Options, db: DB, r: Sys, d: Delivery, now: int, error: Option<string>)
    requires OnlySettles(db, r.db) && d.id < |r.db.deliveries| && r.db.deliveries[d.id] == d && Open(d)
    ensures OnlySettles(db, Dispatched(o, r, d, now, error).db)
  {
    if d.eventId in r.db.events {
      RowSettles(db.deliveries, r.db.deliveries, d.id, Settled(o, d, now, error));
      EventSettles(db.events, r.db.events, d.eventId, StatusAfter(o, d, error, r.db.events[d.eventId].status));
    } else {
      RowSettles(db.deliveries, r.db.deliveries, d.id, Dead(d, "event not found", now));
    }
  }

  lemma RowSettles(rows: seq<Delivery>, others: seq<Delivery>, i: nat, d: Delivery)
    requires SameShape(rows, others) && i < |others|
    requires forall k :: 0 <= k < |others| && Open(others[k]) ==> Open(rows[k])
    requires Open(others[i]) && d.id == others[i].id && d.eventId == others[i].eventId
    requires d.ruleId == others[i].ruleId && d.topic == others[i].topic
    ensures SameShape(rows, others[i := d])
    ensures forall k :: 0 <= k < |others| && Open(others[i := d][k]) ==> Open(rows[k])
  {
  }

  lemma {:induction false} BatchKeepsShape(o: Options, s: Sys, batch: seq<Delivery>, now: int, errors: seq<Option<string>>)
    requires Fresh(s.db.deliveries, batch) && |errors| == |batch|
    ensures OnlySettles(s.db, RunBatch(o, s, batch, now, errors).db)
    decreases |batch|
  {
    if batch != [] {
      var n := |batch| - 1;
      var r := RunBatch(o, s, batch[..n], now, errors[..n]);
      BatchKeepsShape(o, s, batch[..n], now, errors[..n]);
      NextIsFresh(o, s, batch, now, errors);
      DispatchOnlySettles(o, s.db, r, batch[n], now, errors[n]);
      assert RunBatch(o, s, batch, now, errors) == Dispatched(o, r, batch[n], now, errors[n]);
    }
  }

  lemma ShapeKeepsLinks(db: DB, r: DB)
    requires SameShape(db.deliveries, r.deliveries) && r.events.Keys == db.events.Keys && RowsHaveEvents(db)
    ensures RowsHaveEvents(r)
  {
    forall d | d in r.deliveries ensures d.eventId in r.events {
      var i :| 0 <= i < |r.deliveries| && r.deliveries[i] == d;
      assert db.deliveries[i] in db.deliveries;
    }
  }

  lemma DispatchedRows(o: Options, s: Sys, d: Delivery, now: int, error: Option<string>)
    requires RowsHaveEvents(s.db) && d.id < |s.db.deliveries| && s.db.deliveries[d.id] == d
    ensures Dispatched(o, s, d, now, error).db.deliveries == s.db.deliveries[d.id := Settled(o, d, now, error)]
  {
  }

  /** The rows of a batch after the pass. */
  lemma {:induction false} BatchSettles(o: Options, s: Sys, batch: seq<Delivery>, now: int, errors: seq<Option<string>>, i: nat)
    requires RowsHaveEvents(s.db) && Fresh(s.db.deliveries, batch) && |errors| == |batch| && i < |batch|
    ensures batch[i].id < |s.db.deliveries|
    ensures RunBatch(o, s, batch, now, errors).db.deliveries[batch[i].id] == Settled(o, batch[i], now, errors[i])
    decreases |batch|
  {
    var n := |batch| - 1;
    LastSettles(o, s, batch, now, errors);
    if i < n {
      assert batch[i] in batch && batch[n] in batch;
      BatchSettles(o, s, batch[..n], now, errors[..n], i);
    }
  }

  lemma LastSettles(o: Options, s: Sys, batch: seq<Delivery>, now: int, errors: seq<Option<string>>)
    requires RowsHaveEvents(s.db) && Fresh(s.db.deliveries, batch) && |errors| == |batch| > 0
    ensures
      var n := |batch| - 1;
      var rows := RunBatch(o, s, batch[..n], now, errors[..n]).db.deliveries;
      && batch[n].id < |rows| == |s.db.deliveries|
      && RunBatch(o, s, batch, now, errors).db.deliveries == rows[batch[n].id := Settled(o, batch[n], now, errors[n])]
  {
    var n := |batch| - 1;
    var r := RunBatch(o, s, batch[..n], now, errors[..n]);
    assert RowsHaveEvents(r.db) by {
      BatchKeepsShape(o, s, batch[..n], now, errors[..n]);
      ShapeKeepsLinks(s.db, r.db);
    }
    NextIsFresh(o, s, batch, now, errors);
    DispatchedRows(o, r, batch[n], now, errors[n]);
    assert RunBatch(o, s, batch, now, errors) == Dispatched(o, r, batch[n], now, errors[n]);
  }

  lemma BatchIsFresh(rows: seq<Delivery>, now: int, limit: int)
    requires Serial(rows)
    ensures Fresh(rows, Batch(rows, now, limit))
  {
    BatchRows(rows, now, limit);
  }

  lemma PassKeeps(o: Options, s: Sys, now: int, errors: seq<Option<string>>)
    requires Recorded(o, s) && |errors| == |Batch(s.db.deliveries, now, o.batchSize)|
    ensures Recorded(o, Pass(o, s, now, errors))
  {
    BatchIsFresh(s.db.deliveries, now, o.batchSize);
    BatchKeeps(o, s, Batch(s.db.deliveries, now, o.batchSize), now, errors);
  }

  lemma PassOnlySettles(o: Options, s: Sys, now: int, errors: seq<Option<string>>)
    requires Serial(s.db.deliveries) && |errors| == |Batch(s.db.deliveries, now, o.batchSize)|
    ensures OnlySettles(s.db, Pass(o, s, now, errors).db)
  {
    BatchIsFresh(s.db.deliveries, now, o.batchSize);
    BatchKeepsShape(o, s, Batch(s.db.deliveries, now, o.batchSize), now, errors);
  }

  // ---------------------------------------------------------------- new rows

  /** The tables gain new events and new pending rows, and lose and change none. */
  ghost predicate Extends(db: DB, r: DB, now: int) {
    && |db.deliveries| <= |r.deliveries| && r.deliveries[..|db.deliveries|] == db.deliveries
    && (forall i :: |db.deliveries| <= i < |r.deliveries| ==>
          NewDelivery(r.deliveries[i], i, now) && r.deliveries[i].eventId in r.events)
    && (forall k :: k in db.events ==> k in r.events && r.events[k] == db.events[k])
    && (forall k :: k in r.events && k !in db.events ==> r.events[k].eventId == k && r.events[k].status.EventCreated?)
  }

  lemma {:induction false} NoAnswers(calls: seq<Call>, id: nat)
    requires forall c :: c in calls ==> c.id != id
    ensures AnswersTo(calls, id) == []
  {
    if calls != [] {
      var n := |calls| - 1;
      assert calls[n] in calls;
      NoAnswers(calls[..n], id);
    }
  }

  lemma {:induction false} NoOutcome(max: int, calls: seq<Call>, eventId: string)
    requires forall c :: c in calls ==> c.payload.eventId != eventId
    ensures EventOutcome(max, calls, eventId) == EventCreated
  {
    if calls != [] {
      var n := |calls| - 1;
      assert calls[n] in calls;
      NoOutcome(max, calls[..n], eventId);
    }
  }

  lemma ExtensionKeepsRows(o: Options, s: Sys, db: DB, now: int)
    requires Recorded(o, s) && Extends(s.db, db, now)
    ensures RowsFit(o, Sys(db, s.calls))
  {
    forall i | 0 <= i < |db.deliveries| ensures RowFits(o, db.deliveries[i], AnswersTo(s.calls, i)) {
      if i < |s.db.deliveries| {
        assert db.deliveries[i] == db.deliveries[..|s.db.deliveries|][i];
      } else {
        forall c | c in s.calls ensures c.id != i {
          assert CallFits(s.db, c);
        }
        NoAnswers(s.calls, i);
      }
    }
  }

  lemma ExtensionKeepsEvents(o: Options, s: Sys, db: DB, now: int)
    requires Recorded(o, s) && Extends(s.db, db, now)
    ensures EventsFit(o.maxAttempt, Sys(db, s.calls))
  {
    forall k | k in db.events ensures db.events[k].status == EventOutcome(o.maxAttempt, s.calls, k) {
      if k !in s.db.events {
        forall c | c in s.calls ensures c.payload.eventId != k {
          assert CallFits(s.db, c);
        }
        NoOutcome(o.maxAttempt, s.calls, k);
      }
    }
  }

  lemma ExtensionKeepsCalls(o: Options, s: Sys, db: DB, now: int)
    requires Recorded(o, s) && Extends(s.db, db, now)
    ensures CallsFit(Sys(db, s.calls))
  {
    forall c | c in s.calls ensures CallFits(db, c) {
      assert CallFits(s.db, c);
      assert db.deliveries[c.id] == db.deliveries[..|s.db.deliveries|][c.id];
    }
  }

  lemma ExtensionKeeps(o: Options, s: Sys, db: DB, now: int)
    requires Recorded(o, s) && Extends(s.db, db, now)
    ensures Recorded(o, Sys(db, s.calls))
  {
    ExtensionKeepsRows(o, s, db, now);
    ExtensionKeepsEvents(o, s, db, now);
    ExtensionKeepsCalls(o, s, db, now);
    ExtensionKeepsLinks(s.db, db, now);
  }

  lemma ExtensionKeepsLinks(db: DB, r: DB, now: int)
    requires Serial(db.deliveries) && EventKeys(db) && RowsHaveEvents(db) && Extends(db, r, now)
    ensures Serial(r.deliveries) && EventKeys(r) && RowsHaveEvents(r)
  {
    forall i | 0 <= i < |r.deliveries| ensures r.deliveries[i].id == i && r.deliveries[i].eventId in r.events {
      if i < |db.deliveries| {
        assert r.deliveries[i] == r.deliveries[..|db.deliveries|][i] == db.deliveries[i];
        assert db.deliveries[i] in db.deliveries;
      }
    }
  }

  // ---------------------------------------------------------------- what the record says

  /** The states of a row, read off the number of its dispatches. */
  lemma RowStates(o: Options, d: Delivery, answers: seq<Answer>)
    requires o.maxAttempt >= 1 && RowFits(o, d, answers)
    ensures |answers| == if d.status.DeliveryDead? then d.attempts + 1 else d.attempts
    ensures |answers| <= o.maxAttempt
    ensures Open(d) <==> d.nextRetryAt.Some?
    ensures Open(d) <==> d.dispatchedAt.None?
    ensures
      match d.status
      case DeliveryPending => d.attempts == 0
      case DeliveryFailed => 1 <= d.attempts < o.maxAttempt
      case DeliveryDead => d.attempts == o.maxAttempt - 1
      case DeliveryDispatched => 1 <= d.attempts <= o.maxAttempt
  {
  }
}
