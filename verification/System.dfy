/** Whole runs: requests, rule edits and worker passes, one after another, in any order. */
module System {
  import opened DeliveryHistory
  import opened Domain
  import opened GoLib
  import opened Ingest
  import opened RuleEdits
  import opened RuleLog
  import opened Tables
  import opened Wire
  import Dedup
  import W = Worker

  datatype Config = Config(lib: Lib, window: int, opts: W.Options)

  datatype Op =
    | EditDevices(devices: map<string, Device>)
    | IngestLine(raw: string, eventId: string, now: int)
    | Replay(eventId: string, now: int)
    | Create(input: RuleInput, newId: string, operator: string, now: int)
    | Update(ruleId: string, input: RuleInput, operator: string, now: int)
    | Delete(ruleId: string, operator: string, now: int)
    | WorkerPass(now: int, errors: seq<Option<string>>)

  ghost predicate WellFormed(db: DB) {
    Serial(db.deliveries) && IdsMatch(db.rules)
  }

  /** Devices are registered and change status, but stay; a pass needs an answer for every dispatch. */
  ghost predicate CanStep(c: Config, s: W.Sys, op: Op)
    requires WellFormed(s.db)
  {
    match op
    case EditDevices(devices) => s.db.devices.Keys <= devices.Keys
    case WorkerPass(now, errors) => |errors| == |Batch(s.db.deliveries, now, c.opts.batchSize)|
    case _ => true
  }

  ghost function DbStep(c: Config, db: DB, op: Op): DB
    requires WellFormed(db) && !op.WorkerPass?
  {
    match op
    case EditDevices(devices) => db.(devices := devices)
    case IngestLine(raw, eventId, now) => IngestOf(c.lib, db, raw, now, eventId, c.window).0
    case Replay(eventId, now) => ReplayOf(c.lib, db, eventId, now).0
    case Create(input, newId, operator, now) => CreateOf(db, input, newId, operator, now).0
    case Update(ruleId, input, operator, now) => UpdateOf(db, ruleId, input, operator, now).0
    case Delete(ruleId, operator, now) => DeleteOf(db, ruleId, operator, now).0
  }

  ghost function Step(c: Config, s: W.Sys, op: Op): W.Sys
    requires WellFormed(s.db) && CanStep(c, s, op)
  {
    if op.WorkerPass? then W.Pass(c.opts, s, op.now, op.errors) else s.(db := DbStep(c, s.db, op))
  }

  // ---------------------------------------------------------------- invariants

  ghost predicate OneOpen(rows: seq<Delivery>) {
    forall i, j :: 0 <= i < j < |rows| && Open(rows[i]) && Open(rows[j]) ==>
      rows[i].eventId != rows[j].eventId || rows[i].ruleId != rows[j].ruleId
  }

  ghost predicate RowsHaveRules(db: DB) {
    forall d :: d in db.deliveries ==> d.ruleId in db.rules
  }

  ghost predicate Inv(c: Config, s: W.Sys) {
    && Recorded(c.opts, s)
    && IdsMatch(s.db.rules) && RowsHaveRules(s.db)
    && OneOpen(s.db.deliveries)
    && Paired(s.db) && Faithful(c.lib, s.db)
    && LogFits(s.db.rules, s.db.changes)
  }

  /** The tables after the migrations. */
  const EMPTY := DB(map[], map[], map[], map[], [], [])

  lemma EmptyIsFine(c: Config)
    requires c.opts.maxAttempt >= 1
    ensures Inv(c, W.Sys(EMPTY, []))
  {
  }

  // ---------------------------------------------------------------- adding rows

  lemma NewRowsExtend(db: DB, r: DB, eventId: string, rules: seq<RouteRule>, now: int)
    requires r.deliveries == db.deliveries + NewRows(eventId, rules, |db.deliveries|, now) && eventId in r.events
    requires forall k :: k in db.events ==> k in r.events && r.events[k] == db.events[k]
    requires forall k :: k in r.events && k !in db.events ==> r.events[k].eventId == k && r.events[k].status.EventCreated?
    ensures Extends(db, r, now)
  {
    forall i | |db.deliveries| <= i < |r.deliveries| ensures NewDelivery(r.deliveries[i], i, now) && r.deliveries[i].eventId in r.events {
      assert r.deliveries[i] == NewRows(eventId, rules, |db.deliveries|, now)[i - |db.deliveries|];
    }
  }

  lemma NewRowsHaveRules(db: DB, r: DB, eventId: string, rules: seq<RouteRule>, now: int)
    requires RowsHaveRules(db) && r.rules == db.rules
    requires r.deliveries == db.deliveries + NewRows(eventId, rules, |db.deliveries|, now)
    requires forall i :: 0 <= i < |rules| ==> rules[i].ruleId in db.rules
    ensures RowsHaveRules(r)
  {
  }

  lemma NewRowsStayOne(rows: seq<Delivery>, eventId: string, rules: seq<RouteRule>, now: int)
    requires OneOpen(rows) && DifferentIds(rules)
    requires forall i :: 0 <= i < |rules| ==> rules[i].ruleId !in OpenRules(rows, eventId)
    ensures OneOpen(rows + NewRows(eventId, rules, |rows|, now))
  {
    var more := NewRows(eventId, rules, |rows|, now);
    var all := rows + more;
    forall i, j | 0 <= i < j < |all| && Open(all[i]) && Open(all[j])
      ensures all[i].eventId != all[j].eventId || all[i].ruleId != all[j].ruleId
    {
      if j >= |rows| {
        assert all[j].ruleId == rules[j - |rows|].ruleId;
        if i < |rows| {
          assert all[i] in rows;
        } else {
          assert all[i].ruleId == rules[i - |rows|].ruleId;
        }
      }
    }
  }

  // ---------------------------------------------------------------- ingest and replay

  lemma CommittedKeeps(c: Config, s: W.Sys, t: Telemetry, raw: string, now: int, eventId: string)
    requires Inv(c, s) && eventId !in s.db.events && Dedup.Key(c.lib, t) !in s.db.raws
    requires ParseMessage(c.lib, raw, now) == Accepted(t)
    ensures Inv(c, s.(db := Committed(c.lib, s.db, t, raw, now, eventId)))
    ensures Extends(s.db, Committed(c.lib, s.db, t, raw, now, eventId), now)
  {
    var ev := NewEvent(c.lib, t, eventId, now);
    var r, rules := Committed(c.lib, s.db, t, raw, now, eventId), Matched(c.lib, s.db, ev);
    CommittedKeepsRows(c, s, t, raw, now, eventId, rules, r);
    CommittedKeepsPairs(c.lib, s.db, t, raw, now, eventId, rules);
    CommittedIsFaithful(c.lib, s.db, t, raw, now, eventId, rules);
    AllParts(c, s.(db := r));
  }

  lemma AllParts(c: Config, s: W.Sys)
    requires Recorded(c.opts, s) && IdsMatch(s.db.rules) && RowsHaveRules(s.db) && OneOpen(s.db.deliveries)
    requires Paired(s.db) && Faithful(c.lib, s.db) && LogFits(s.db.rules, s.db.changes)
    ensures Inv(c, s)
  {
  }

  lemma CommittedKeepsRows(c: Config, s: W.Sys, t: Telemetry, raw: string, now: int, eventId: string, rules: seq<RouteRule>, r: DB)
    requires Inv(c, s) && eventId !in s.db.events
    requires rules == Matched(c.lib, s.db, NewEvent(c.lib, t, eventId, now))
    requires r == CommittedTo(c.lib, s.db, t, raw, now, eventId, rules)
    ensures RowsHaveRules(r) && OneOpen(r.deliveries)
    ensures Extends(s.db, r, now) && Recorded(c.opts, s.(db := r))
  {
    NewRowsExtend(s.db, r, eventId, rules, now);
    ExtensionKeeps(c.opts, s, r, now);
    MatchedAreRules(c.lib, s.db, NewEvent(c.lib, t, eventId, now));
    NewRowsHaveRules(s.db, r, eventId, rules, now);
    assert OpenRules(s.db.deliveries, eventId) == {};
    NewRowsStayOne(s.db.deliveries, eventId, rules, now);
  }

  lemma IngestKeeps(c: Config, s: W.Sys, raw: string, eventId: string, now: int)
    requires Inv(c, s)
    ensures
      var r := IngestOf(c.lib, s.db, raw, now, eventId, c.window).0;
      Inv(c, s.(db := r)) && Extends(s.db, r, now)
  {
    var r := IngestOf(c.lib, s.db, raw, now, eventId, c.window);
    IngestCommitsOrNot(c.lib, s.db, raw, now, eventId, c.window);
    if IsNew(r.1) {
      AdmittedIsParsed(c.lib, s.db, raw, now);
      CommittedKeeps(c, s, Admitted(c.lib, s.db, raw, now).value, raw, now, eventId);
    } else {
      assert s.(db := r.0) == s;
    }
  }

  lemma ReplayKeeps(c: Config, s: W.Sys, eventId: string, now: int)
    requires Inv(c, s)
    ensures
      var r := ReplayOf(c.lib, s.db, eventId, now).0;
      Inv(c, s.(db := r)) && Extends(s.db, r, now)
  {
    var r := ReplayOf(c.lib, s.db, eventId, now).0;
    if eventId in s.db.events {
      var matched, created := Matched(c.lib, s.db, s.db.events[eventId]), Replayed(c.lib, s.db, eventId);
      var pending := OpenRules(s.db.deliveries, eventId);
      MatchedAreRules(c.lib, s.db, s.db.events[eventId]);
      LackingContents(matched, pending);
      LackingIdsDiffer(matched, pending);
      NewRowsExtend(s.db, r, eventId, created, now);
      ExtensionKeeps(c.opts, s, r, now);
      forall i | 0 <= i < |created| ensures created[i].ruleId in s.db.rules && created[i].ruleId !in pending {
        assert created[i] in created;
      }
      NewRowsHaveRules(s.db, r, eventId, created, now);
      NewRowsStayOne(s.db.deliveries, eventId, created, now);
      PairsFrame(s.db, r);
      FaithfulFrame(c.lib, s.db, r);
    } else {
      assert s.(db := r) == s;
    }
  }

  // ---------------------------------------------------------------- devices and rules

  lemma SideTablesKeep(c: Config, s: W.Sys, r: DB)
    requires Inv(c, s) && r.deliveries == s.db.deliveries && r.events == s.db.events && r.raws == s.db.raws
    requires IdsMatch(r.rules) && s.db.rules.Keys <= r.rules.Keys && LogFits(r.rules, r.changes)
    ensures Inv(c, s.(db := r))
  {
    PairsFrame(s.db, r);
    FaithfulFrame(c.lib, s.db, r);
    assert Extends(s.db, r, 0);
    ExtensionKeeps(c.opts, s, r, 0);
  }

  /** A step other than a pass only adds: new events, and new rows stamped at its time. */
  lemma OtherStepExtends(c: Config, s: W.Sys, op: Op, now: int)
    requires Inv(c, s) && !op.WorkerPass? && CanStep(c, s, op)
    requires op.EditDevices? || op.now == now
    ensures Extends(s.db, DbStep(c, s.db, op), now)
  {
    match op {
      case EditDevices(_) =>
      case IngestLine(raw, eventId, at) => IngestKeeps(c, s, raw, eventId, at);
      case Replay(eventId, at) => ReplayKeeps(c, s, eventId, at);
      case Create(input, newId, operator, at) => CreateFrame(s.db, input, newId, operator, at);
      case Update(ruleId, input, operator, at) => UpdateFrame(s.db, ruleId, input, operator, at);
      case Delete(ruleId, operator, at) => DeleteFrame(s.db, ruleId, operator, at);
    }
  }

  // ---------------------------------------------------------------- the worker

  lemma SettlingKeepsRules(db: DB, r: DB)
    requires RowsHaveRules(db) && OnlySettles(db, r)
    ensures RowsHaveRules(r)
  {
    forall d | d in r.deliveries ensures d.ruleId in r.rules {
      var i :| 0 <= i < |r.deliveries| && r.deliveries[i] == d;
      assert db.deliveries[i] in db.deliveries;
    }
  }

  /** What only settles rows, and keeps their record, keeps every invariant. */
  lemma SettlingKeepsInv(c: Config, s: W.Sys, r: W.Sys)
    requires Inv(c, s) && Recorded(c.opts, r) && OnlySettles(s.db, r.db)
    ensures Inv(c, r)
  {
    SettlingKeepsRules(s.db, r.db);
    PairsFrame(s.db, r.db);
    FaithfulFrame(c.lib, s.db, r.db);
    SettlingKeepsOne(s.db, r.db);
    AllParts(c, r);
  }

  lemma SettlingKeepsOne(db: DB, r: DB)
    requires OneOpen(db.deliveries) && OnlySettles(db, r)
    ensures OneOpen(r.deliveries)
  {
  }

  lemma PassKeepsInv(c: Config, s: W.Sys, now: int, errors: seq<Option<string>>)
    requires Inv(c, s) && |errors| == |Batch(s.db.deliveries, now, c.opts.batchSize)|
    ensures Inv(c, W.Pass(c.opts, s, now, errors))
  {
    PassKeeps(c.opts, s, now, errors);
    PassOnlySettles(c.opts, s, now, errors);
    SettlingKeepsInv(c, s, W.Pass(c.opts, s, now, errors));
  }

  // ---------------------------------------------------------------- every step, every run

  lemma StepKeeps(c: Config, s: W.Sys, op: Op)
    requires Inv(c, s) && CanStep(c, s, op)
    ensures Inv(c, Step(c, s, op))
  {
    match op {
      case EditDevices(_) => SideTablesKeep(c, s, DbStep(c, s.db, op));
      case IngestLine(raw, eventId, now) => IngestKeeps(c, s, raw, eventId, now);
      case Replay(eventId, now) => ReplayKeeps(c, s, eventId, now);
      case WorkerPass(now, errors) => PassKeepsInv(c, s, now, errors);
      case Create(input, newId, operator, now) =>
        CreateFrame(s.db, input, newId, operator, now);
        CreateKeepsLog(s.db, input, newId, operator, now);
        SideTablesKeep(c, s, DbStep(c, s.db, op));
      case Update(ruleId, input, operator, now) =>
        UpdateFrame(s.db, ruleId, input, operator, now);
        UpdateKeepsLog(s.db, ruleId, input, operator, now);
        SideTablesKeep(c, s, DbStep(c, s.db, op));
      case Delete(ruleId, operator, now) =>
        DeleteFrame(s.db, ruleId, operator, now);
        DeleteKeepsLog(s.db, ruleId, operator, now);
        SideTablesKeep(c, s, DbStep(c, s.db, op));
    }
  }

  /** s is where the run ops leads from the empty tables. */
  ghost predicate Reaches(c: Config, ops: seq<Op>, s: W.Sys) {
    if ops == [] then s == W.Sys(EMPTY, [])
    else
      var n := |ops| - 1;
      exists before :: Reaches(c, ops[..n], before) && WellFormed(before.db) && CanStep(c, before, ops[n]) && s == Step(c, before, ops[n])
  }

  lemma {:induction false} ReachableIsFine(c: Config, ops: seq<Op>, s: W.Sys)
    requires c.opts.maxAttempt >= 1 && Reaches(c, ops, s)
    ensures Inv(c, s)
    decreases |ops|
  {
    if ops == [] {
      EmptyIsFine(c);
    } else {
      var n := |ops| - 1;
      var before :| Reaches(c, ops[..n], before) && WellFormed(before.db) && CanStep(c, before, ops[n]) && s == Step(c, before, ops[n]);
      ReachableIsFine(c, ops[..n], before);
      StepKeeps(c, before, ops[n]);
    }
  }

  /** A worker never meets a value that its encoder refuses: every payload holds a finite number. */
  lemma PayloadsEncode(c: Config, s: W.Sys, d: Delivery)
    requires Inv(c, s) && d in s.db.deliveries
    ensures d.eventId in s.db.events && Finite(W.PayloadOf(s.db.events[d.eventId], d).value)
  {
    var key := s.db.events[d.eventId].dedupKey;
    assert RawOfEvent(s.db, key, d.eventId);
    RecitedIsFinite(c.lib, s.db.raws[key], s.db.events[d.eventId]);
  }

  lemma RecitedIsFinite(lib: Lib, m: RawMessage, e: Event)
    requires Recites(lib, m, e)
    ensures Finite(e.value)
  {
    AcceptedValueIsFinite(lib, m.rawText, m.receivedAt);
  }

  // ---------------------------------------------------------------- what no step touches

  /** Raw rows, log entries and sink calls are only added; events change in status alone; a rule id
      stays taken; a delivery keeps its place, its event, its rule and its topic. */
  ghost predicate OnlyAdds(s: W.Sys, r: W.Sys) {
    && (forall k :: k in s.db.raws ==> k in r.db.raws && r.db.raws[k] == s.db.raws[k])
    && s.db.changes <= r.db.changes && s.calls <= r.calls
    && s.db.rules.Keys <= r.db.rules.Keys
    && (forall k :: k in s.db.events ==> k in r.db.events && r.db.events[k] == s.db.events[k].(status := r.db.events[k].status))
    && |s.db.deliveries| <= |r.db.deliveries|
    && SameShape(s.db.deliveries, r.db.deliveries[..|s.db.deliveries|])
  }

  lemma ExtensionOnlyAdds(s: W.Sys, r: DB, now: int)
    requires Extends(s.db, r, now) && s.db.changes <= r.changes && s.db.rules.Keys <= r.rules.Keys
    requires forall k :: k in s.db.raws ==> k in r.raws && r.raws[k] == s.db.raws[k]
    ensures OnlyAdds(s, s.(db := r))
  {
  }

  lemma SideTablesOnlyAdd(s: W.Sys, r: DB)
    requires r.deliveries == s.db.deliveries && r.events == s.db.events && r.raws == s.db.raws
    requires s.db.rules.Keys <= r.rules.Keys && s.db.changes <= r.changes
    ensures OnlyAdds(s, s.(db := r))
  {
  }

  lemma CommitOnlyAdds(lib: Lib, s: W.Sys, t: Telemetry, raw: string, now: int, eventId: string)
    requires IdsMatch(s.db.rules) && Dedup.Key(lib, t) !in s.db.raws
    requires Extends(s.db, Committed(lib, s.db, t, raw, now, eventId), now)
    ensures OnlyAdds(s, s.(db := Committed(lib, s.db, t, raw, now, eventId)))
  {
    ExtensionOnlyAdds(s, Committed(lib, s.db, t, raw, now, eventId), now);
  }

  lemma IngestOnlyAdds(c: Config, s: W.Sys, raw: string, eventId: string, now: int)
    requires Inv(c, s)
    ensures OnlyAdds(s, s.(db := IngestOf(c.lib, s.db, raw, now, eventId, c.window).0))
  {
    var r := IngestOf(c.lib, s.db, raw, now, eventId, c.window);
    IngestKeeps(c, s, raw, eventId, now);
    IngestCommitsOrNot(c.lib, s.db, raw, now, eventId, c.window);
    if IsNew(r.1) {
      CommitOnlyAdds(c.lib, s, Admitted(c.lib, s.db, raw, now).value, raw, now, eventId);
    } else {
      SideTablesOnlyAdd(s, s.db);
    }
  }

  lemma PassOnlyAdds(c: Config, s: W.Sys, now: int, errors: seq<Option<string>>)
    requires Inv(c, s) && |errors| == |Batch(s.db.deliveries, now, c.opts.batchSize)|
    ensures OnlyAdds(s, W.Pass(c.opts, s, now, errors))
  {
    PassOnlySettles(c.opts, s, now, errors);
    PassOnlyCalls(c.opts, s, now, errors);
    var r := W.Pass(c.opts, s, now, errors).db;
    assert r.deliveries[..|s.db.deliveries|] == r.deliveries;
  }

  lemma StepOnlyAdds(c: Config, s: W.Sys, op: Op)
    requires Inv(c, s) && CanStep(c, s, op)
    ensures OnlyAdds(s, Step(c, s, op))
  {
    match op {
      case EditDevices(_) => SideTablesOnlyAdd(s, DbStep(c, s.db, op));
      case IngestLine(raw, eventId, now) => IngestOnlyAdds(c, s, raw, eventId, now);
      case Replay(eventId, now) =>
        ReplayKeeps(c, s, eventId, now);
        ExtensionOnlyAdds(s, DbStep(c, s.db, op), now);
      case Create(input, newId, operator, now) =>
        CreateFrame(s.db, input, newId, operator, now);
        SideTablesOnlyAdd(s, DbStep(c, s.db, op));
      case Update(ruleId, input, operator, now) =>
        UpdateFrame(s.db, ruleId, input, operator, now);
        SideTablesOnlyAdd(s, DbStep(c, s.db, op));
      case Delete(ruleId, operator, now) =>
        DeleteFrame(s.db, ruleId, operator, now);
        SideTablesOnlyAdd(s, DbStep(c, s.db, op));
      case WorkerPass(now, errors) => PassOnlyAdds(c, s, now, errors);
    }
  }

  lemma PassOnlyCalls(o: W.Options, s: W.Sys, now: int, errors: seq<Option<string>>)
    requires Serial(s.db.deliveries) && |errors| == |Batch(s.db.deliveries, now, o.batchSize)|
    ensures s.calls <= W.Pass(o, s, now, errors).calls
  {
    BatchIsFresh(s.db.deliveries, now, o.batchSize);
    BatchOnlyCalls(o, s, Batch(s.db.deliveries, now, o.batchSize), now, errors);
  }

  lemma {:induction false} BatchOnlyCalls(o: W.Options, s: W.Sys, batch: seq<Delivery>, now: int, errors: seq<Option<string>>)
    requires |errors| == |batch| && forall d :: d in batch ==> d.id < |s.db.deliveries|
    ensures s.calls <= W.RunBatch(o, s, batch, now, errors).calls
    decreases |batch|
  {
    if batch != [] {
      var n := |batch| - 1;
      BatchOnlyCalls(o, s, batch[..n], now, errors[..n]);
      assert batch[n] in batch;
    }
  }

  // ---------------------------------------------------------------- runs from any state

  ghost predicate CanRun(c: Config, s: W.Sys, ops: seq<Op>)
    requires Inv(c, s)
    decreases |ops|
  {
    ops != [] ==>
      && CanStep(c, s, ops[0])
      && (StepKeeps(c, s, ops[0]);
          CanRun(c, Step(c, s, ops[0]), ops[1..]))
  }

  ghost function RunFrom(c: Config, s: W.Sys, ops: seq<Op>): (r: W.Sys)
    requires Inv(c, s) && CanRun(c, s, ops)
    ensures Inv(c, r)
    decreases |ops|
  {
    if ops == [] then s
    else
      StepKeeps(c, s, ops[0]);
      RunFrom(c, Step(c, s, ops[0]), ops[1..])
  }

  /** Nor does any run. */
  lemma {:induction false} RunOnlyAdds(c: Config, s: W.Sys, ops: seq<Op>)
    requires Inv(c, s) && CanRun(c, s, ops)
    ensures OnlyAdds(s, RunFrom(c, s, ops))
    decreases |ops|
  {
    if ops == [] {
      assert s.db.deliveries[..|s.db.deliveries|] == s.db.deliveries;
    } else {
      StepKeeps(c, s, ops[0]);
      StepOnlyAdds(c, s, ops[0]);
      var r := Step(c, s, ops[0]);
      RunOnlyAdds(c, r, ops[1..]);
      AddingOn(s, r, RunFrom(c, r, ops[1..]));
    }
  }

  lemma AddingOn(s: W.Sys, r: W.Sys, t: W.Sys)
    requires OnlyAdds(s, r) && OnlyAdds(r, t)
    ensures OnlyAdds(s, t)
  {
    ShapesOn(s.db.deliveries, r.db.deliveries, t.db.deliveries);
    forall k | k in s.db.events
      ensures k in t.db.events && t.db.events[k] == s.db.events[k].(status := t.db.events[k].status)
    {
      assert r.db.events[k] == s.db.events[k].(status := r.db.events[k].status);
    }
  }

  lemma ShapesOn(rows: seq<Delivery>, more: seq<Delivery>, most: seq<Delivery>)
    requires |rows| <= |more| <= |most|
    requires SameShape(rows, more[..|rows|]) && SameShape(more, most[..|more|])
    ensures SameShape(rows, most[..|rows|])
  {
    forall i | 0 <= i < |rows| ensures more[i] == more[..|rows|][i] && most[i] == most[..|more|][i] {
    }
  }
}
