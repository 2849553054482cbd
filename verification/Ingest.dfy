/** What ingesting a line and replaying an event do to the tables. */
module Ingest {
  import opened Dedup
  import opened Domain
  import opened GoLib
  import opened Ordering
  import opened Router
  import opened Tables
  import opened Wire

  datatype ServiceError =
    | InvalidTelemetry(reason: Reject) | InvalidField(field: string)
    | DeviceNotFound | DeviceInactive | EventNotFound | RuleNotFound | RuleConflict
    | DuplicateMessage | Database(violation: Violation)

  datatype Response<+T> = Success(value: T) | Failure(error: ServiceError)

  datatype TelemetryResult = TelemetryResult(eventId: string, duplicate: bool, matchedRules: seq<string>, topics: seq<string>)

  datatype ReplayResult = ReplayResult(eventId: string, matchedRules: seq<string>, createdRules: seq<string>, replayedCount: nat)

  // ---------------------------------------------------------------- rows

  function NewEvent(lib: Lib, t: Telemetry, eventId: string, now: int): Event {
    Event(eventId, t.deviceId, t.ts, t.metric, t.value, t.unit, Key(lib, t), t.metric, EventCreated, now)
  }

  function NewRaw(lib: Lib, t: Telemetry, raw: string, eventId: string, now: int): RawMessage {
    RawMessage(t.deviceId, raw, t.checksum, t.checksum, now, Key(lib, t), RawParsed, Some(eventId))
  }

  function NewRow(eventId: string, rule: RouteRule, id: nat, now: int): Delivery {
    Delivery(id, eventId, rule.ruleId, rule.topic, DeliveryPending, 0, "", Some(now), None)
  }

  function NewRows(eventId: string, rules: seq<RouteRule>, from: nat, now: int): (rows: seq<Delivery>)
    ensures |rows| == |rules|
  {
    seq(|rules|, i requires 0 <= i < |rules| => NewRow(eventId, rules[i], from + i, now))
  }

  function IdsOf(rules: seq<RouteRule>): seq<string> {
    seq(|rules|, i requires 0 <= i < |rules| => rules[i].ruleId)
  }

  function TopicsOf(rules: seq<RouteRule>): seq<string> {
    seq(|rules|, i requires 0 <= i < |rules| => rules[i].topic)
  }

  // ---------------------------------------------------------------- matching against the table

  ghost function Matched(lib: Lib, db: DB, ev: Event): seq<RouteRule>
    requires IdsMatch(db.rules)
  {
    MatchOf(lib, ev, LiveRules(db))
  }

  lemma MatchedAreRules(lib: Lib, db: DB, ev: Event)
    requires IdsMatch(db.rules)
    ensures
      var matched := Matched(lib, db, ev);
      && (forall i :: 0 <= i < |matched| ==> matched[i].ruleId in db.rules)
      && DifferentIds(matched)
  {
    var matched := Matched(lib, db, ev);
    MatchContents(lib, ev, LiveRules(db));
    forall i | 0 <= i < |matched| ensures matched[i].ruleId in db.rules {
      assert matched[i] in Elements(matched);
    }
  }

  // ---------------------------------------------------------------- ingest

  /** The answer to a line that was seen before; the rules are those of now. */
  ghost function DuplicateOf(lib: Lib, db: DB, m: RawMessage): TelemetryResult
    requires IdsMatch(db.rules)
  {
    match m.eventId
    case None => TelemetryResult("", true, [], [])
    case Some(id) =>
      if id in db.events then
        var rules := Matched(lib, db, db.events[id]);
        TelemetryResult(id, true, IdsOf(rules), TopicsOf(rules))
      else TelemetryResult(id, true, [], [])
  }

  /** A parsed message with this key is stored. */
  predicate Seen(db: DB, key: string) {
    key in db.raws && db.raws[key].status.RawParsed?
  }

  /** The check before the transaction, which also asks that the stored message be recent. */
  predicate SeenRecently(db: DB, key: string, now: int, window: int) {
    Seen(db, key) && WithinWindow(db.raws[key].receivedAt, now, window)
  }

  /** What the transaction leaves behind when it commits, routing the event to the given rules. */
  function CommittedTo(lib: Lib, db: DB, t: Telemetry, raw: string, now: int, eventId: string, rules: seq<RouteRule>): DB {
    db.(events := db.events[eventId := NewEvent(lib, t, eventId, now)],
        raws := db.raws[Key(lib, t) := NewRaw(lib, t, raw, eventId, now)],
        devices := Touched(db.devices, t.deviceId, now),
        deliveries := db.deliveries + NewRows(eventId, rules, |db.deliveries|, now))
  }

  ghost function Committed(lib: Lib, db: DB, t: Telemetry, raw: string, now: int, eventId: string): DB
    requires IdsMatch(db.rules)
  {
    CommittedTo(lib, db, t, raw, now, eventId, Matched(lib, db, NewEvent(lib, t, eventId, now)))
  }

  function Routed(eventId: string, rules: seq<RouteRule>): TelemetryResult {
    TelemetryResult(eventId, false, IdsOf(rules), TopicsOf(rules))
  }

  /** The transaction, with the second check inside it. */
  ghost function IngestTx(lib: Lib, db: DB, t: Telemetry, raw: string, now: int, eventId: string): (DB, Response<TelemetryResult>)
    requires IdsMatch(db.rules)
  {
    var key, ev := Key(lib, t), NewEvent(lib, t, eventId, now);
    if Seen(db, key) then (db, Success(DuplicateOf(lib, db, db.raws[key])))
    else if EventRefused(db, ev).Some? then (db, Failure(Database(EventRefused(db, ev).value)))
    else if key in db.raws then (db, Failure(Database(UniqueViolation)))
    else
      var rules := Matched(lib, db, ev);
      (Committed(lib, db, t, raw, now, eventId), Success(Routed(eventId, rules)))
  }

  /** The checks on the line and on its device. */
  function Admitted(lib: Lib, db: DB, raw: string, now: int): Response<Telemetry> {
    match ParseMessage(lib, raw, now)
    case Rejected(reason) => Failure(InvalidTelemetry(reason))
    case Accepted(t) =>
      if t.deviceId !in db.devices then Failure(DeviceNotFound)
      else if !db.devices[t.deviceId].status.DeviceActive? then Failure(DeviceInactive)
      else Success(t)
  }

  ghost function IngestOf(lib: Lib, db: DB, raw: string, now: int, eventId: string, window: int): (DB, Response<TelemetryResult>)
    requires IdsMatch(db.rules)
  {
    match Admitted(lib, db, raw, now)
    case Failure(error) => (db, Failure(error))
    case Success(t) =>
      if SeenRecently(db, Key(lib, t), now, window) then (db, Success(DuplicateOf(lib, db, db.raws[Key(lib, t)])))
      else IngestTx(lib, db, t, raw, now, eventId)
  }

  predicate IsNew(r: Response<TelemetryResult>) {
    r.Success? && !r.value.duplicate
  }

  lemma DuplicateIsMarked(lib: Lib, db: DB, m: RawMessage)
    requires IdsMatch(db.rules)
    ensures DuplicateOf(lib, db, m).duplicate
  {
  }

  /** It names the event of the stored message. */
  lemma DuplicateNames(lib: Lib, db: DB, m: RawMessage)
    requires IdsMatch(db.rules) && m.eventId.Some?
    ensures DuplicateOf(lib, db, m).duplicate && DuplicateOf(lib, db, m).eventId == m.eventId.value
  {
  }

  lemma TxCommitsOrNot(lib: Lib, db: DB, t: Telemetry, raw: string, now: int, eventId: string)
    requires IdsMatch(db.rules)
    ensures
      var r := IngestTx(lib, db, t, raw, now, eventId);
      if IsNew(r.1) then
        && eventId !in db.events && Key(lib, t) !in db.raws && t.deviceId in db.devices
        && r.0 == Committed(lib, db, t, raw, now, eventId)
        && r.1 == Success(Routed(eventId, Matched(lib, db, NewEvent(lib, t, eventId, now))))
      else r.0 == db
  {
    if Seen(db, Key(lib, t)) {
      DuplicateIsMarked(lib, db, db.raws[Key(lib, t)]);
    }
  }

  /** Ingest commits a new event under a new key, or changes nothing: every error and every duplicate
      leaves the tables as they were. */
  lemma IngestCommitsOrNot(lib: Lib, db: DB, raw: string, now: int, eventId: string, window: int)
    requires IdsMatch(db.rules)
    ensures
      var r, t := IngestOf(lib, db, raw, now, eventId, window), Admitted(lib, db, raw, now);
      if IsNew(r.1) then
        && t.Success? && eventId !in db.events && Key(lib, t.value) !in db.raws && t.value.deviceId in db.devices
        && r.0 == Committed(lib, db, t.value, raw, now, eventId)
        && r.1 == Success(Routed(eventId, Matched(lib, db, NewEvent(lib, t.value, eventId, now))))
      else r.0 == db
  {
    match Admitted(lib, db, raw, now) {
      case Failure(_) =>
      case Success(t) =>
        TxCommitsOrNot(lib, db, t, raw, now, eventId);
        if Seen(db, Key(lib, t)) {
          DuplicateIsMarked(lib, db, db.raws[Key(lib, t)]);
        }
    }
  }

  /** Ingest with the check before the transaction taken out. */
  ghost function IngestWithoutFastPath(lib: Lib, db: DB, raw: string, now: int, eventId: string): (DB, Response<TelemetryResult>)
    requires IdsMatch(db.rules)
  {
    match Admitted(lib, db, raw, now)
    case Failure(error) => (db, Failure(error))
    case Success(t) => IngestTx(lib, db, t, raw, now, eventId)
  }

  /** The fast path is only a speed-up: answers and tables are those of the slow path, for every
      window. So the window decides nothing: an old line is as much a duplicate as a recent one. */
  lemma FastPathIsOnlyASpeedUp(lib: Lib, db: DB, raw: string, now: int, eventId: string, window: int)
    requires IdsMatch(db.rules)
    ensures IngestOf(lib, db, raw, now, eventId, window) == IngestWithoutFastPath(lib, db, raw, now, eventId)
  {
  }

  /** An admitted line is answered as a duplicate exactly when a message with its key is stored, however
      long ago that was. */
  lemma DuplicateExactly(lib: Lib, db: DB, raw: string, now: int, eventId: string, window: int)
    requires IdsMatch(db.rules) && Admitted(lib, db, raw, now).Success?
    ensures
      var answer := IngestOf(lib, db, raw, now, eventId, window).1;
      answer.Success? && answer.value.duplicate <==> Seen(db, Key(lib, Admitted(lib, db, raw, now).value))
  {
    var t := Admitted(lib, db, raw, now).value;
    if Seen(db, Key(lib, t)) {
      DuplicateIsMarked(lib, db, db.raws[Key(lib, t)]);
    }
  }

  // ---------------------------------------------------------------- replay

  /** The rules of the event that have an open delivery. */
  ghost function OpenRules(rows: seq<Delivery>, eventId: string): set<string> {
    set d | d in rows && d.eventId == eventId && Open(d) :: d.ruleId
  }

  function Lacking(rules: seq<RouteRule>, pending: set<string>): seq<RouteRule> {
    if rules == [] then []
    else
      var n := |rules| - 1;
      Lacking(rules[..n], pending) + (if rules[n].ruleId in pending then [] else [rules[n]])
  }

  ghost function Replayed(lib: Lib, db: DB, eventId: string): seq<RouteRule>
    requires IdsMatch(db.rules) && eventId in db.events
  {
    Lacking(Matched(lib, db, db.events[eventId]), OpenRules(db.deliveries, eventId))
  }

  ghost function ReplayOf(lib: Lib, db: DB, eventId: string, now: int): (DB, Response<ReplayResult>)
    requires IdsMatch(db.rules)
  {
    if eventId !in db.events then (db, Failure(EventNotFound))
    else
      var matched, created := Matched(lib, db, db.events[eventId]), Replayed(lib, db, eventId);
      (db.(deliveries := db.deliveries + NewRows(eventId, created, |db.deliveries|, now)),
       Success(ReplayResult(eventId, IdsOf(matched), IdsOf(created), |created|)))
  }

  lemma ReplayFrame(lib: Lib, db: DB, eventId: string, now: int)
    requires IdsMatch(db.rules)
    ensures var r := ReplayOf(lib, db, eventId, now).0; r == db.(deliveries := r.deliveries)
  {
  }

  lemma {:induction false} LackingContents(rules: seq<RouteRule>, pending: set<string>)
    ensures forall r :: r in Lacking(rules, pending) <==> r in rules && r.ruleId !in pending
  {
    if rules != [] {
      var n := |rules| - 1;
      LackingContents(rules[..n], pending);
      assert rules == rules[..n] + [rules[n]];
    }
  }

  ghost predicate DifferentIds(rules: seq<RouteRule>) {
    forall i, j :: 0 <= i < j < |rules| ==> rules[i].ruleId != rules[j].ruleId
  }

  lemma {:induction false} LackingIdsDiffer(rules: seq<RouteRule>, pending: set<string>)
    requires DifferentIds(rules)
    ensures DifferentIds(Lacking(rules, pending))
  {
    if rules != [] {
      var n := |rules| - 1;
      var some := Lacking(rules[..n], pending);
      LackingIdsDiffer(rules[..n], pending);
      LackingContents(rules[..n], pending);
      forall i | 0 <= i < |some| ensures some[i].ruleId != rules[n].ruleId {
        assert some[i] in some;
      }
    }
  }

  /** A replay right after a replay creates nothing. */
  lemma ReplayTwice(lib: Lib, db: DB, eventId: string, now: int, later: int)
    requires IdsMatch(db.rules) && eventId in db.events
    ensures
      var again := ReplayOf(lib, ReplayOf(lib, db, eventId, now).0, eventId, later);
      && again.0 == ReplayOf(lib, db, eventId, now).0
      && again.1 == Success(ReplayResult(eventId, IdsOf(Matched(lib, db, db.events[eventId])), [], 0))
  {
    var once := ReplayOf(lib, db, eventId, now).0;
    var created := Replayed(lib, db, eventId);
    var matched := Matched(lib, db, db.events[eventId]);
    assert LiveRules(once) == LiveRules(db);
    var pending := OpenRules(db.deliveries, eventId);
    LackingContents(matched, pending);
    forall r | r in matched ensures r.ruleId in OpenRules(once.deliveries, eventId) {
      NowOpen(db, once, eventId, created, now, r, pending);
    }
    AllPending(matched, OpenRules(once.deliveries, eventId));
    assert Matched(lib, once, once.events[eventId]) == matched;
    assert Replayed(lib, once, eventId) == [];
    assert NewRows(eventId, [], |once.deliveries|, later) == [] && once.deliveries + [] == once.deliveries;
    assert IdsOf([]) == [];
    var again := ReplayOf(lib, once, eventId, later);
    assert again.0.deliveries == once.deliveries;
    assert again.0 == once;
    assert again.1 == Success(ReplayResult(eventId, IdsOf(matched), [], 0));
  }

  lemma NowOpen(db: DB, once: DB, eventId: string, created: seq<RouteRule>, now: int, r: RouteRule, pending: set<string>)
    requires once.deliveries == db.deliveries + NewRows(eventId, created, |db.deliveries|, now)
    requires pending == OpenRules(db.deliveries, eventId) && (r.ruleId in pending || r in created)
    ensures r.ruleId in OpenRules(once.deliveries, eventId)
  {
    if r.ruleId in pending {
      var d :| d in db.deliveries && d.eventId == eventId && Open(d) && d.ruleId == r.ruleId;
      assert d in once.deliveries;
    } else {
      var i :| 0 <= i < |created| && created[i] == r;
      var d := NewRows(eventId, created, |db.deliveries|, now)[i];
      assert once.deliveries[|db.deliveries| + i] == d;
      assert d in once.deliveries && Open(d) && d.ruleId == r.ruleId;
    }
  }

  lemma {:induction false} AllPending(rules: seq<RouteRule>, pending: set<string>)
    requires forall r :: r in rules ==> r.ruleId in pending
    ensures Lacking(rules, pending) == []
  {
    if rules != [] {
      AllPending(rules[..|rules| - 1], pending);
    }
  }

  // ---------------------------------------------------------------- raw rows and events

  /** The raw row of an event: parsed, under the event's key, and naming the event. */
  predicate RawOfEvent(db: DB, key: string, eventId: string) {
    && key in db.raws && eventId in db.events
    && db.raws[key].dedupKey == key == db.events[eventId].dedupKey
    && db.raws[key].status.RawParsed? && db.raws[key].eventId == Some(eventId)
  }

  /** Raw rows and events correspond one to one. */
  ghost predicate Paired(db: DB) {
    && (forall key :: key in db.raws ==> db.raws[key].eventId.Some? && RawOfEvent(db, key, db.raws[key].eventId.value))
    && (forall id :: id in db.events ==> RawOfEvent(db, db.events[id].dedupKey, id))
  }

  lemma CommittedKeepsPairs(lib: Lib, db: DB, t: Telemetry, raw: string, now: int, eventId: string, rules: seq<RouteRule>)
    requires Paired(db) && eventId !in db.events && Key(lib, t) !in db.raws
    ensures Paired(CommittedTo(lib, db, t, raw, now, eventId, rules))
  {
    var r, key := CommittedTo(lib, db, t, raw, now, eventId, rules), Key(lib, t);
    forall k | k in r.raws ensures r.raws[k].eventId.Some? && RawOfEvent(r, k, r.raws[k].eventId.value) {
      if k != key {
        assert RawOfEvent(db, k, db.raws[k].eventId.value);
      }
    }
    forall id | id in r.events ensures RawOfEvent(r, r.events[id].dedupKey, id) {
      if id != eventId {
        assert RawOfEvent(db, db.events[id].dedupKey, id);
      }
    }
  }

  lemma PairsFrame(db: DB, r: DB)
    requires Paired(db) && r.raws == db.raws && r.events.Keys == db.events.Keys
    requires forall k :: k in db.events ==> r.events[k].dedupKey == db.events[k].dedupKey
    ensures Paired(r)
  {
    forall key | key in r.raws ensures r.raws[key].eventId.Some? && RawOfEvent(r, key, r.raws[key].eventId.value) {
      assert RawOfEvent(db, key, db.raws[key].eventId.value);
    }
    forall id | id in r.events ensures RawOfEvent(r, r.events[id].dedupKey, id) {
      assert RawOfEvent(db, db.events[id].dedupKey, id);
    }
  }

  /** No two events share a key. */
  lemma OneEventPerKey(db: DB, id: string, other: string)
    requires Paired(db) && id in db.events && other in db.events
    requires db.events[id].dedupKey == db.events[other].dedupKey
    ensures id == other
  {
    assert RawOfEvent(db, db.events[id].dedupKey, id) && RawOfEvent(db, db.events[other].dedupKey, other);
  }

  // ---------------------------------------------------------------- rows and lines

  /** The rows hold what the line says: this raw row and this event are those of one accepted line. */
  predicate Recites(lib: Lib, m: RawMessage, e: Event) {
    var parsed := ParseMessage(lib, m.rawText, m.receivedAt);
    parsed.Accepted? && HoldsTelemetry(lib, m, e, parsed.telemetry)
  }

  predicate HoldsTelemetry(lib: Lib, m: RawMessage, e: Event, t: Telemetry) {
    && m.deviceId == e.deviceId == t.deviceId && e.ts == t.ts && e.metric == e.routeKey == t.metric
    && e.value == t.value && e.unit == t.unit
    && m.dedupKey == e.dedupKey == Key(lib, t) && m.checksumReceived == m.checksumExpected == t.checksum
    && e.parsedAt == m.receivedAt
  }

  ghost predicate Faithful(lib: Lib, db: DB) {
    forall key :: key in db.raws && db.raws[key].eventId.Some? && db.raws[key].eventId.value in db.events ==>
      Recites(lib, db.raws[key], db.events[db.raws[key].eventId.value])
  }

  lemma CommittedIsFaithful(lib: Lib, db: DB, t: Telemetry, raw: string, now: int, eventId: string, rules: seq<RouteRule>)
    requires Faithful(lib, db) && Paired(db) && eventId !in db.events && ParseMessage(lib, raw, now) == Accepted(t)
    ensures Faithful(lib, CommittedTo(lib, db, t, raw, now, eventId, rules))
  {
    var r, key := CommittedTo(lib, db, t, raw, now, eventId, rules), Key(lib, t);
    forall k | k in r.raws && r.raws[k].eventId.Some? && r.raws[k].eventId.value in r.events
      ensures Recites(lib, r.raws[k], r.events[r.raws[k].eventId.value])
    {
      if k != key {
        assert RawOfEvent(db, k, db.raws[k].eventId.value);
      }
    }
  }

  lemma FaithfulFrame(lib: Lib, db: DB, r: DB)
    requires Faithful(lib, db) && r.raws == db.raws && r.events.Keys == db.events.Keys
    requires forall k :: k in db.events ==> r.events[k] == db.events[k].(status := r.events[k].status)
    ensures Faithful(lib, r)
  {
    forall k | k in r.raws && r.raws[k].eventId.Some? && r.raws[k].eventId.value in r.events
      ensures Recites(lib, r.raws[k], r.events[r.raws[k].eventId.value])
    {
      var id := r.raws[k].eventId.value;
      assert Recites(lib, db.raws[k], db.events[id]);
    }
  }

  lemma AdmittedIsParsed(lib: Lib, db: DB, raw: string, now: int)
    ensures
      var t := Admitted(lib, db, raw, now);
      t.Success? ==> ParseMessage(lib, raw, now) == Accepted(t.value) && t.value.deviceId in db.devices
  {
  }

  // ---------------------------------------------------------------- what ingest and replay report

  /** The row of a new delivery to a rule: on that rule's topic, pending, not yet tried, due at once. */
  predicate RoutedRow(db: DB, d: Delivery, id: nat, eventId: string, ruleId: string, now: int) {
    && ruleId in db.rules
    && d == Delivery(id, eventId, ruleId, db.rules[ruleId].topic, DeliveryPending, 0, "", Some(now), None)
  }

  /** The rows from some position on are deliveries to these rules, in this order. */
  ghost predicate RowsFrom(db: DB, rows: seq<Delivery>, from: nat, eventId: string, ids: seq<string>, now: int) {
    && |rows| == from + |ids|
    && forall i :: 0 <= i < |ids| ==> RoutedRow(db, rows[from + i], from + i, eventId, ids[i], now)
  }

  /** These are the topics of the rules, in their order. */
  ghost predicate TopicsFit(db: DB, ids: seq<string>, topics: seq<string>) {
    && |topics| == |ids|
    && forall i :: 0 <= i < |ids| ==> ids[i] in db.rules && topics[i] == db.rules[ids[i]].topic
  }

  /** The rules are rows of the table. */
  ghost predicate InTable(db: DB, rules: seq<RouteRule>) {
    forall r :: r in rules ==> r.ruleId in db.rules && db.rules[r.ruleId] == r
  }

  lemma MatchedAreStored(lib: Lib, db: DB, ev: Event)
    requires IdsMatch(db.rules)
    ensures InTable(db, Matched(lib, db, ev)) && TopicsFit(db, IdsOf(Matched(lib, db, ev)), TopicsOf(Matched(lib, db, ev)))
  {
    var matched := Matched(lib, db, ev);
    MatchContents(lib, ev, LiveRules(db));
    forall r | r in matched ensures r.ruleId in db.rules && db.rules[r.ruleId] == r {
      assert r in Elements(matched);
    }
    StoredTopics(db, matched);
  }

  lemma StoredTopics(db: DB, rules: seq<RouteRule>)
    requires InTable(db, rules)
    ensures TopicsFit(db, IdsOf(rules), TopicsOf(rules))
  {
  }

  lemma MatchedExactly(lib: Lib, db: DB, ev: Event, ruleId: string)
    requires IdsMatch(db.rules)
    ensures ruleId in IdsOf(Matched(lib, db, ev)) <==>
            ruleId in db.rules && Wanted(lib, ev, db.rules[ruleId])
  {
    var matched := Matched(lib, db, ev);
    MatchContents(lib, ev, LiveRules(db));
    if ruleId in db.rules && Wanted(lib, ev, db.rules[ruleId]) {
      assert db.rules[ruleId] in Elements(matched);
      var i :| 0 <= i < |matched| && matched[i] == db.rules[ruleId];
      assert IdsOf(matched)[i] == ruleId;
    }
    if ruleId in IdsOf(matched) {
      var i :| 0 <= i < |matched| && IdsOf(matched)[i] == ruleId;
      assert matched[i] in Elements(matched);
    }
  }

  /** These are the ids of the live rules that select the event. */
  ghost predicate NamesSelected(lib: Lib, db: DB, ev: Event, ids: seq<string>) {
    forall ruleId :: ruleId in ids <==>
      ruleId in db.rules && Wanted(lib, ev, db.rules[ruleId])
  }

  /** The ids are listed by descending priority of the rules, and alphabetically among equal ones. */
  ghost predicate InPriorityOrder(db: DB, ids: seq<string>) {
    forall i, j :: 0 <= i < j < |ids| && ids[i] in db.rules && ids[j] in db.rules ==>
      var p, q := db.rules[ids[i]].priority, db.rules[ids[j]].priority;
      p > q || (p == q && Alphabetical(ids[i], ids[j]))
  }

  lemma ListingIsInOrder(db: DB, rules: seq<RouteRule>)
    requires InTable(db, rules) && Listing(rules)
    ensures InPriorityOrder(db, IdsOf(rules))
  {
  }

  lemma LackingIsListing(rules: seq<RouteRule>, pending: set<string>)
    requires Listing(rules)
    ensures Listing(Lacking(rules, pending))
  {
    if rules != [] {
      var n := |rules| - 1;
      var some := Lacking(rules[..n], pending);
      LackingIsListing(rules[..n], pending);
      LackingContents(rules[..n], pending);
      forall i | 0 <= i < |some|
        ensures some[i].priority > rules[n].priority
          || (some[i].priority == rules[n].priority && Alphabetical(some[i].ruleId, rules[n].ruleId))
      {
        assert some[i] in some;
        var k :| 0 <= k < n && rules[k] == some[i];
      }
    }
  }

  lemma MatchedAreSelected(lib: Lib, db: DB, ev: Event)
    requires IdsMatch(db.rules)
    ensures NamesSelected(lib, db, ev, IdsOf(Matched(lib, db, ev)))
    ensures InPriorityOrder(db, IdsOf(Matched(lib, db, ev))) && Listing(Matched(lib, db, ev))
  {
    MatchedAreStored(lib, db, ev);
    MatchContents(lib, ev, LiveRules(db));
    ListingIsInOrder(db, Matched(lib, db, ev));
    forall ruleId
      ensures ruleId in IdsOf(Matched(lib, db, ev)) <==>
              ruleId in db.rules && Wanted(lib, ev, db.rules[ruleId])
    {
      MatchedExactly(lib, db, ev, ruleId);
    }
  }

  lemma RowsAreRouted(db: DB, eventId: string, rules: seq<RouteRule>, now: int)
    requires InTable(db, rules)
    ensures
      var rows := db.deliveries;
      RowsFrom(db, rows + NewRows(eventId, rules, |rows|, now), |rows|, eventId, IdsOf(rules), now)
  {
    forall i | 0 <= i < |rules| ensures rules[i].ruleId in db.rules && db.rules[rules[i].ruleId] == rules[i] {
      assert rules[i] in rules;
    }
  }

  /** A new event gets one pending delivery, due at once, for each rule of the answer and no other, in the
      order of the answer and on the topics of the rules; and the answer names exactly the live rules that
      select it, and their topics. */
  lemma IngestReportsItsRows(lib: Lib, db: DB, raw: string, now: int, eventId: string, window: int)
    requires IdsMatch(db.rules) && IsNew(IngestOf(lib, db, raw, now, eventId, window).1)
    ensures
      var (r, answer) := IngestOf(lib, db, raw, now, eventId, window);
      && answer.value.eventId == eventId && eventId in r.events
      && db.deliveries <= r.deliveries
      && RowsFrom(db, r.deliveries, |db.deliveries|, eventId, answer.value.matchedRules, now)
      && TopicsFit(db, answer.value.matchedRules, answer.value.topics)
      && InPriorityOrder(db, answer.value.matchedRules)
      && NamesSelected(lib, db, r.events[eventId], answer.value.matchedRules)
  {
    var t := Admitted(lib, db, raw, now).value;
    IngestCommitsOrNot(lib, db, raw, now, eventId, window);
    var ev := NewEvent(lib, t, eventId, now);
    MatchedAreSelected(lib, db, ev);
    MatchedAreStored(lib, db, ev);
    RowsAreRouted(db, eventId, Matched(lib, db, ev), now);
  }

  /** A delivery of the event to the rule is pending or has failed. */
  ghost predicate Awaiting(db: DB, eventId: string, ruleId: string) {
    exists d :: d in db.deliveries && d.eventId == eventId && d.ruleId == ruleId && (d.status.DeliveryPending? || d.status.DeliveryFailed?)
  }

  lemma OpenIsAwaiting(db: DB, eventId: string)
    ensures forall ruleId :: ruleId in OpenRules(db.deliveries, eventId) <==> Awaiting(db, eventId, ruleId)
  {
  }

  /** A replay adds one pending delivery for each selected rule that has no open one, on the rule's topic,
      and no other. */
  lemma ReplayReportsItsRows(lib: Lib, db: DB, eventId: string, now: int)
    requires IdsMatch(db.rules) && eventId in db.events
    ensures
      var (r, answer) := ReplayOf(lib, db, eventId, now);
      && answer.Success? && r == db.(deliveries := r.deliveries) && db.deliveries <= r.deliveries
      && NamesSelected(lib, db, db.events[eventId], answer.value.matchedRules)
      && RowsFrom(db, r.deliveries, |db.deliveries|, eventId, answer.value.createdRules, now)
      && answer.value.eventId == eventId && answer.value.replayedCount == |answer.value.createdRules|
      && InPriorityOrder(db, answer.value.matchedRules) && InPriorityOrder(db, answer.value.createdRules)
      && (forall ruleId :: ruleId in answer.value.createdRules <==>
            ruleId in answer.value.matchedRules && !Awaiting(db, eventId, ruleId))
  {
    var matched, created := Matched(lib, db, db.events[eventId]), Replayed(lib, db, eventId);
    MatchedAreSelected(lib, db, db.events[eventId]);
    MatchedAreStored(lib, db, db.events[eventId]);
    LackingContents(matched, OpenRules(db.deliveries, eventId));
    RowsAreRouted(db, eventId, created, now);
    LackingIds(matched, OpenRules(db.deliveries, eventId));
    LackingIsListing(matched, OpenRules(db.deliveries, eventId));
    ListingIsInOrder(db, created);
    OpenIsAwaiting(db, eventId);
  }

  lemma LackingIds(rules: seq<RouteRule>, pending: set<string>)
    ensures forall ruleId :: ruleId in IdsOf(Lacking(rules, pending)) <==> ruleId in IdsOf(rules) && ruleId !in pending
  {
    var some := Lacking(rules, pending);
    LackingContents(rules, pending);
    forall ruleId ensures ruleId in IdsOf(some) <==> ruleId in IdsOf(rules) && ruleId !in pending {
      if ruleId in IdsOf(some) {
        var i :| 0 <= i < |some| && IdsOf(some)[i] == ruleId;
        assert some[i] in rules;
        var j :| 0 <= j < |rules| && rules[j] == some[i];
        assert IdsOf(rules)[j] == ruleId;
      }
      if ruleId in IdsOf(rules) && ruleId !in pending {
        var j :| 0 <= j < |rules| && IdsOf(rules)[j] == ruleId;
        assert rules[j] in some;
        var i :| 0 <= i < |some| && some[i] == rules[j];
        assert IdsOf(some)[i] == ruleId;
      }
    }
  }

  /** A duplicate is answered with the stored event id, and with the rules that want the event now, in order,
      and their topics; or with nothing but the id when the event is gone. */
  lemma DuplicateReports(lib: Lib, db: DB, m: RawMessage)
    requires IdsMatch(db.rules) && m.eventId.Some?
    ensures
      var answer, id := DuplicateOf(lib, db, m), m.eventId.value;
      && answer.eventId == id && answer.duplicate
      && if id in db.events then
           && NamesSelected(lib, db, db.events[id], answer.matchedRules)
           && TopicsFit(db, answer.matchedRules, answer.topics) && InPriorityOrder(db, answer.matchedRules)
         else answer.matchedRules == [] && answer.topics == []
  {
    if m.eventId.value in db.events {
      var ev := db.events[m.eventId.value];
      MatchedAreSelected(lib, db, ev);
      MatchedAreStored(lib, db, ev);
    }
  }

  lemma ReplayOfUnknown(lib: Lib, db: DB, eventId: string, now: int)
    requires IdsMatch(db.rules) && eventId !in db.events
    ensures ReplayOf(lib, db, eventId, now) == (db, Failure(EventNotFound))
  {
  }

  // ---------------------------------------------------------------- what ingest stores and refuses

  /** What a new line leaves behind: its event, its raw row, the time on its device, and nothing else but
      delivery rows. */
  lemma IngestStores(lib: Lib, db: DB, raw: string, now: int, eventId: string, window: int, t: Telemetry)
    requires IdsMatch(db.rules) && ParseMessage(lib, raw, now) == Accepted(t)
    requires IsNew(IngestOf(lib, db, raw, now, eventId, window).1)
    ensures
      var (r, answer) := IngestOf(lib, db, raw, now, eventId, window);
      var key := Key(lib, t);
      && answer.value.eventId == eventId && eventId !in db.events && key !in db.raws
      && r.events == db.events[eventId :=
           Event(eventId, t.deviceId, t.ts, t.metric, t.value, t.unit, key, t.metric, EventCreated, now)]
      && r.raws == db.raws[key :=
           RawMessage(t.deviceId, raw, t.checksum, t.checksum, now, key, RawParsed, Some(eventId))]
      && t.deviceId in db.devices
      && r.devices == db.devices[t.deviceId := db.devices[t.deviceId].(lastSeenAt := Some(now), updatedAt := now)]
      && r.rules == db.rules && r.changes == db.changes && db.deliveries <= r.deliveries
  {
    IngestCommitsOrNot(lib, db, raw, now, eventId, window);
    AdmittedIsParsed(lib, db, raw, now);
  }

  /** Every way to be turned away, in this order, and none changes anything: a malformed line, an unknown
      device, a device that is not active, and then, unless the line is a duplicate, an event id or a key
      that is taken. */
  lemma IngestRefuses(lib: Lib, db: DB, raw: string, now: int, eventId: string, window: int)
    requires IdsMatch(db.rules)
    ensures
      var (r, answer) := IngestOf(lib, db, raw, now, eventId, window);
      match ParseMessage(lib, raw, now)
      case Rejected(reason) => r == db && answer == Failure(InvalidTelemetry(reason))
      case Accepted(t) =>
        if t.deviceId !in db.devices then r == db && answer == Failure(DeviceNotFound)
        else if db.devices[t.deviceId].status != DeviceActive then r == db && answer == Failure(DeviceInactive)
        else if Key(lib, t) in db.raws && db.raws[Key(lib, t)].status == RawParsed then r == db && answer.Success? && answer.value.duplicate
        else if eventId in db.events || Key(lib, t) in db.raws then r == db && answer == Failure(Database(UniqueViolation))
        else IsNew(answer)
  {
    var t := Admitted(lib, db, raw, now);
    if t.Success? {
      AdmittedIsParsed(lib, db, raw, now);
      DuplicateExactly(lib, db, raw, now, eventId, window);
      IngestCommitsOrNot(lib, db, raw, now, eventId, window);
    }
  }
}
