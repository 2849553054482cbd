/** The database: its rows, its constraints, and the statements the service and the worker run. */
module Tables {
  import opened Domain
  import opened GoLib
  import opened Ordering

  /** All committed rows. Each map is keyed by the column a unique index covers; a delivery's id is
      its position, so that ids grow in the order of insertion. */
  datatype DB = DB(
    devices: map<string, Device>, raws: map<string, RawMessage>, events: map<string, Event>,
    rules: map<string, RouteRule>, changes: seq<Change>, deliveries: seq<Delivery>)

  datatype Violation = UniqueViolation | ForeignKeyViolation | NumberOutOfRange

  // ---------------------------------------------------------------- constraints

  function EventRefused(db: DB, e: Event): Option<Violation> {
    if e.eventId in db.events then Some(UniqueViolation)
    else if e.deviceId !in db.devices then Some(ForeignKeyViolation)
    else None
  }

  function RawRefused(db: DB, m: RawMessage): Option<Violation> {
    if m.dedupKey in db.raws then Some(UniqueViolation)
    else if m.deviceId !in db.devices then Some(ForeignKeyViolation)
    else None
  }

  function DeliveryRefused(db: DB, d: Delivery): Option<Violation> {
    if d.eventId !in db.events || d.ruleId !in db.rules then Some(ForeignKeyViolation) else None
  }

  /** What the priority column holds. */
  predicate Int32(n: int) {
    -0x8000_0000 <= n < 0x8000_0000
  }

  function RuleRefused(db: DB, r: RouteRule): Option<Violation> {
    if !Int32(r.priority) then Some(NumberOutOfRange)
    else if r.ruleId in db.rules then Some(UniqueViolation)
    else None
  }

  /** What the database takes: an event and a raw row of a known device, under a new id or key; a delivery
      of a known event to a known rule; a rule under a new id, with a priority of 32 bits. */
  lemma Constraints(db: DB, e: Event, m: RawMessage, d: Delivery, r: RouteRule)
    ensures EventRefused(db, e) == None <==> e.eventId !in db.events && e.deviceId in db.devices
    ensures RawRefused(db, m) == None <==> m.dedupKey !in db.raws && m.deviceId in db.devices
    ensures DeliveryRefused(db, d) == None <==> d.eventId in db.events && d.ruleId in db.rules
    ensures RuleRefused(db, r) == None <==> r.ruleId !in db.rules && -2_147_483_648 <= r.priority <= 2_147_483_647
    ensures EventRefused(db, e) == Some(UniqueViolation) <==> e.eventId in db.events
    ensures RawRefused(db, m) == Some(UniqueViolation) <==> m.dedupKey in db.raws
  {
  }

  /** The newest row or entry. */
  function Last<T>(xs: seq<T>): T
    requires xs != []
  {
    xs[|xs| - 1]
  }

  // ---------------------------------------------------------------- deliveries

  predicate Open(d: Delivery) {
    d.status.DeliveryPending? || d.status.DeliveryFailed?
  }

  predicate Due(d: Delivery, now: int) {
    Open(d) && d.nextRetryAt.Some? && d.nextRetryAt.value <= now
  }

  function Stamp(d: Delivery): int {
    match d.nextRetryAt case None => 0 case Some(at) => at
  }

  /** ORDER BY next_retry_at, id. */
  predicate DueBefore(a: Delivery, b: Delivery) {
    Stamp(a) < Stamp(b) || (Stamp(a) == Stamp(b) && a.id < b.id)
  }

  ghost predicate Serial(rows: seq<Delivery>) {
    forall i :: 0 <= i < |rows| ==> rows[i].id == i
  }

  ghost function DueRows(rows: seq<Delivery>, now: int): set<Delivery> {
    set d | d in rows && Due(d, now)
  }

  /** The batch of a pass: the first due rows, as many as the limit allows. */
  ghost function Batch(rows: seq<Delivery>, now: int, limit: int): seq<Delivery>
    requires Serial(rows)
  {
    FirstOf(DueBefore, DueRows(rows, now), if limit <= 0 then 100 else limit)
  }

  lemma OneMoreDue(rows: seq<Delivery>, now: int, i: nat)
    requires i < |rows|
    ensures DueRows(rows[..i + 1], now) == DueRows(rows[..i], now) + (if Due(rows[i], now) then {rows[i]} else {})
  {
    assert rows[..i + 1] == rows[..i] + [rows[i]];
  }

  /** A delivery as it is created. */
  predicate NewDelivery(d: Delivery, id: nat, now: int) {
    && d.id == id && d.status.DeliveryPending? && d.attempts == 0 && d.lastError == ""
    && d.nextRetryAt == Some(now) && d.dispatchedAt.None?
  }

  function Delivered(d: Delivery, at: int): Delivery {
    d.(status := DeliveryDispatched, attempts := d.attempts + 1, lastError := "", nextRetryAt := None, dispatchedAt := Some(at))
  }

  function Failed(d: Delivery, attempt: int, lastError: string, nextRetry: int): Delivery {
    d.(status := DeliveryFailed, attempts := attempt, lastError := lastError, nextRetryAt := Some(nextRetry))
  }

  function Dead(d: Delivery, lastError: string, at: int): Delivery {
    d.(status := DeliveryDead, lastError := lastError, nextRetryAt := None, dispatchedAt := Some(at))
  }

  // ---------------------------------------------------------------- rules

  /** What a matcher reads back as from its JSON text: an empty metric list is left out. */
  function StoredMatcher(m: Matcher): Matcher {
    m.(metrics := if m.metrics == Some([]) then None else m.metrics)
  }

  ghost function LiveRules(db: DB): set<RouteRule> {
    LiveAmong(db.rules, db.rules.Keys)
  }

  ghost function LiveAmong(rules: map<string, RouteRule>, keys: set<string>): set<RouteRule> {
    set k | k in keys && k in rules && rules[k].deletedAt.None? :: rules[k]
  }

  /** ORDER BY priority DESC, whatever the order of equal priorities. */
  predicate ByPriority(list: seq<RouteRule>) {
    forall i, j :: 0 <= i < j < |list| ==> list[i].priority >= list[j].priority
  }

  lemma RulePlaced(list: seq<RouteRule>, p: nat, r: RouteRule)
    requires ByPriority(list) && p <= |list| && r !in list
    requires forall i :: 0 <= i < p ==> list[i].priority >= r.priority
    requires p < |list| ==> list[p].priority < r.priority
    requires forall i, j :: 0 <= i < j < |list| ==> list[i] != list[j]
    ensures
      var more := list[..p] + [r] + list[p..];
      && ByPriority(more) && Elements(more) == Elements(list) + {r}
      && forall i, j :: 0 <= i < j < |more| ==> more[i] != more[j]
  {
    var more := list[..p] + [r] + list[p..];
    assert list == list[..p] + list[p..];
    forall i, j | 0 <= i < j < |more| ensures more[i].priority >= more[j].priority && more[i] != more[j] {
      assert i < p ==> more[i] == list[i];
      assert i > p ==> more[i] == list[i - 1];
      assert j < p ==> more[j] == list[j];
      assert j > p ==> more[j] == list[j - 1];
    }
  }

  // ---------------------------------------------------------------- the store

  class Store {
    var devices: map<string, Device>
    var raws: map<string, RawMessage>
    var events: map<string, Event>
    var rules: map<string, RouteRule>
    var changes: seq<Change>
    var deliveries: seq<Delivery>

    constructor (db: DB)
      ensures View() == db
    {
      devices, raws, events := db.devices, db.raws, db.events;
      rules, changes, deliveries := db.rules, db.changes, db.deliveries;
    }

    function View(): DB
      reads this
    {
      DB(devices, raws, events, rules, changes, deliveries)
    }

    /** Commit: everything a transaction did takes effect at once. */
    method Adopt(db: DB)
      modifies this
      ensures View() == db
    {
      devices, raws, events := db.devices, db.raws, db.events;
      rules, changes, deliveries := db.rules, db.changes, db.deliveries;
    }

    method TouchSeen(id: string, at: int)
      modifies this`devices
      ensures devices == Touched(old(devices), id, at)
    {
      if id in devices {
        devices := devices[id := devices[id].(lastSeenAt := Some(at), updatedAt := at)];
      }
    }

    method CreateEvent(e: Event) returns (refused: Option<Violation>)
      modifies this`events
      ensures refused == EventRefused(old(View()), e)
      ensures events == if refused.None? then old(events)[e.eventId := e] else old(events)
    {
      refused := EventRefused(View(), e);
      if refused.None? {
        events := events[e.eventId := e];
      }
    }

    method UpdateEventStatus(eventId: string, status: EventStatus)
      modifies this`events
      ensures events == WithStatus(old(events), eventId, status)
    {
      if eventId in events {
        events := events[eventId := events[eventId].(status := status)];
      }
    }

    method InsertRaw(m: RawMessage) returns (refused: Option<Violation>)
      modifies this`raws
      ensures refused == RawRefused(old(View()), m)
      ensures raws == if refused.None? then old(raws)[m.dedupKey := m] else old(raws)
    {
      refused := RawRefused(View(), m);
      if refused.None? {
        raws := raws[m.dedupKey := m];
      }
    }

    /** The id column of d is not used: the table assigns the next one. */
    method CreateDelivery(d: Delivery) returns (refused: Option<Violation>)
      modifies this`deliveries
      ensures refused == DeliveryRefused(old(View()), d)
      ensures deliveries == old(deliveries) + (if refused.None? then [d.(id := |old(deliveries)|)] else [])
    {
      refused := DeliveryRefused(View(), d);
      if refused.None? {
        deliveries := deliveries + [d.(id := |deliveries|)];
      }
    }

    method ListDueDeliveries(now: int, limit: int) returns (due: seq<Delivery>)
      requires Serial(deliveries)
      ensures due == Batch(deliveries, now, limit)
    {
      var found: seq<Delivery> := [];
      for i := 0 to |deliveries|
        invariant Elements(found) == DueRows(deliveries[..i], now)
        invariant forall j :: 0 <= j < |found| ==> found[j].id < i
        invariant forall j, k :: 0 <= j < k < |found| ==> found[j] != found[k]
      {
        OneMoreDue(deliveries, now, i);
        if Due(deliveries[i], now) {
          found := found + [deliveries[i]];
        }
      }
      assert deliveries[..|deliveries|] == deliveries;
      due := OrderBy(DueBefore, found);
      var n := if limit <= 0 then 100 else limit;
      if n <= |due| {
        due := due[..n];
      }
    }

    method ListDeliveriesByEvent(eventId: string) returns (list: seq<Delivery>)
      ensures list == OfEvent(deliveries, eventId)
    {
      list := [];
      for i := 0 to |deliveries|
        invariant list == OfEvent(deliveries[..i], eventId)
      {
        assert deliveries[..i + 1][..i] == deliveries[..i];
        if deliveries[i].eventId == eventId {
          list := list + [deliveries[i]];
        }
      }
      assert deliveries[..|deliveries|] == deliveries;
    }

    method MarkDelivered(id: nat, at: int)
      modifies this`deliveries
      ensures id < |old(deliveries)| ==> deliveries == old(deliveries)[id := Delivered(old(deliveries)[id], at)]
      ensures id >= |old(deliveries)| ==> deliveries == old(deliveries)
    {
      if id < |deliveries| {
        deliveries := deliveries[id := Delivered(deliveries[id], at)];
      }
    }

    method MarkFailed(id: nat, attempt: int, lastError: string, nextRetry: int)
      modifies this`deliveries
      ensures id < |old(deliveries)| ==> deliveries == old(deliveries)[id := Failed(old(deliveries)[id], attempt, lastError, nextRetry)]
      ensures id >= |old(deliveries)| ==> deliveries == old(deliveries)
    {
      if id < |deliveries| {
        deliveries := deliveries[id := Failed(deliveries[id], attempt, lastError, nextRetry)];
      }
    }

    method MarkDead(id: nat, lastError: string, at: int)
      modifies this`deliveries
      ensures id < |old(deliveries)| ==> deliveries == old(deliveries)[id := Dead(old(deliveries)[id], lastError, at)]
      ensures id >= |old(deliveries)| ==> deliveries == old(deliveries)
    {
      if id < |deliveries| {
        deliveries := deliveries[id := Dead(deliveries[id], lastError, at)];
      }
    }

    /** The rules that are not deleted, each once, by descending priority; how the database breaks
        ties is left open. */
    method ListRules() returns (list: seq<RouteRule>)
      requires IdsMatch(rules)
      ensures Elements(list) == LiveRules(View()) && ByPriority(list)
      ensures forall i, j :: 0 <= i < j < |list| ==> list[i] != list[j]
    {
      list := [];
      var keys := rules.Keys;
      ghost var done: set<string> := {};
      while keys != {}
        invariant done + keys == rules.Keys && done !! keys
        invariant Elements(list) == LiveAmong(rules, done) && ByPriority(list)
        invariant forall i :: 0 <= i < |list| ==> list[i].ruleId in done
        invariant forall i, j :: 0 <= i < j < |list| ==> list[i] != list[j]
      {
        var k :| k in keys;
        assert LiveAmong(rules, done + {k}) == LiveAmong(rules, done) + (if rules[k].deletedAt.None? then {rules[k]} else {});
        keys, done := keys - {k}, done + {k};
        if rules[k].deletedAt.None? {
          var p := 0;
          while p < |list| && list[p].priority >= rules[k].priority
            invariant 0 <= p <= |list|
            invariant forall i :: 0 <= i < p ==> list[i].priority >= rules[k].priority
          {
            p := p + 1;
          }
          RulePlaced(list, p, rules[k]);
          list := list[..p] + [rules[k]] + list[p..];
        }
      }
    }

    method CreateRule(r: RouteRule) returns (refused: Option<Violation>)
      modifies this`rules
      ensures refused == RuleRefused(old(View()), r)
      ensures rules == if refused.None? then old(rules)[r.ruleId := InsertedRule(old(rules), r)] else old(rules)
    {
      refused := RuleRefused(View(), r);
      if refused.None? {
        rules := rules[r.ruleId := InsertedRule(rules, r)];
      }
    }

    method UpdateRule(r: RouteRule) returns (refused: Option<Violation>)
      modifies this`rules
      ensures refused == if Int32(r.priority) then None else Some(NumberOutOfRange)
      ensures refused.None? && r.ruleId in old(rules) ==>
        rules == old(rules)[r.ruleId := UpdatedRow(old(rules)[r.ruleId], r)]
      ensures refused.Some? || r.ruleId !in old(rules) ==> rules == old(rules)
    {
      refused := if Int32(r.priority) then None else Some(NumberOutOfRange);
      if refused.None? && r.ruleId in rules {
        rules := rules[r.ruleId := UpdatedRow(rules[r.ruleId], r)];
      }
    }

    method SoftDelete(ruleId: string, at: int)
      modifies this`rules
      ensures ruleId in old(rules) ==> rules == old(rules)[ruleId := DeletedRow(old(rules)[ruleId], at)]
      ensures ruleId !in old(rules) ==> rules == old(rules)
    {
      if ruleId in rules {
        rules := rules[ruleId := DeletedRow(rules[ruleId], at)];
      }
    }

    method AppendChange(c: Change) returns (refused: Option<Violation>)
      modifies this`changes
      ensures refused == if c.ruleId in rules then None else Some(ForeignKeyViolation)
      ensures changes == old(changes) + (if refused.None? then [c] else [])
    {
      refused := if c.ruleId in rules then None else Some(ForeignKeyViolation);
      if refused.None? {
        changes := changes + [c];
      }
    }
  }

  // ---------------------------------------------------------------- what the statements compute

  function Touched(devices: map<string, Device>, id: string, at: int): map<string, Device> {
    if id in devices then devices[id := devices[id].(lastSeenAt := Some(at), updatedAt := at)] else devices
  }

  function WithStatus(events: map<string, Event>, eventId: string, status: EventStatus): map<string, Event> {
    if eventId in events then events[eventId := events[eventId].(status := status)] else events
  }

  function OfEvent(rows: seq<Delivery>, eventId: string): seq<Delivery> {
    if rows == [] then []
    else
      var n := |rows| - 1;
      OfEvent(rows[..n], eventId) + (if rows[n].eventId == eventId then [rows[n]] else [])
  }

  predicate IdsMatch(rules: map<string, RouteRule>) {
    forall k :: k in rules ==> rules[k].ruleId == k
  }

  /** The row of a new rule: the table assigns the id, and a new rule is not deleted. */
  function InsertedRule(rules: map<string, RouteRule>, r: RouteRule): RouteRule {
    r.(id := |rules| + 1, matcher := StoredMatcher(r.matcher), deletedAt := None)
  }

  function UpdatedRow(row: RouteRule, r: RouteRule): RouteRule {
    row.(name := r.name, matcher := StoredMatcher(r.matcher), topic := r.topic, priority := r.priority,
         enabled := r.enabled, updatedAt := r.updatedAt)
  }

  function DeletedRow(row: RouteRule, at: int): RouteRule {
    row.(deletedAt := Some(at), enabled := false, updatedAt := at)
  }
}
