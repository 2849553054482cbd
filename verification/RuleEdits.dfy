/** Creating, changing and deleting rules, each with its entry in the change log. */
module RuleEdits {
  import opened Domain
  import opened GoLib
  import opened Ingest
  import opened Tables

  datatype RuleInput = RuleInput(ruleId: string, name: string, matcher: Matcher, topic: string, priority: int, enabled: bool)

  /** The zero Matcher, with a nil metric list. */
  const NO_MATCHER := Matcher("", None, "")

  /** A rule as its JSON text records it. */
  function Snapshot(r: RouteRule): RouteRule {
    r.(matcher := StoredMatcher(r.matcher))
  }

  /** A rule as created; the table, not this value, knows its id. */
  function Draft(input: RuleInput, ruleId: string, now: int): RouteRule {
    RouteRule(0, ruleId, input.name, input.matcher, input.topic, input.priority, input.enabled, None, now, now)
  }

  function CreateOf(db: DB, input: RuleInput, newId: string, operator: string, now: int): (DB, Response<RouteRule>) {
    var ruleId := if input.ruleId == "" then newId else input.ruleId;
    if input.name == "" then (db, Failure(InvalidField("name")))
    else if input.topic == "" then (db, Failure(InvalidField("topic")))
    else if ruleId in db.rules then (db, Failure(RuleConflict))
    else if !Int32(input.priority) then (db, Failure(Database(NumberOutOfRange)))
    else
      var r := Draft(input, ruleId, now);
      (db.(rules := db.rules[ruleId := InsertedRule(db.rules, r)],
           changes := db.changes + [Change(ruleId, ActionCreate, None, Some(Snapshot(r)), operator, now)]),
       Success(r))
  }

  /** An empty name or topic, and the zero matcher, mean "keep"; priority and flag are always taken. */
  function Edited(row: RouteRule, input: RuleInput, now: int): RouteRule {
    row.(name := if input.name != "" then input.name else row.name,
         topic := if input.topic != "" then input.topic else row.topic,
         matcher := if input.matcher != NO_MATCHER then input.matcher else row.matcher,
         priority := input.priority, enabled := input.enabled, updatedAt := now)
  }

  function Label(before: RouteRule, after: RouteRule): ChangeAction {
    if !before.enabled && after.enabled then ActionEnable
    else if before.enabled && !after.enabled then ActionDisable
    else ActionUpdate
  }

  predicate Live(db: DB, ruleId: string) {
    ruleId in db.rules && db.rules[ruleId].deletedAt.None?
  }

  function UpdateOf(db: DB, ruleId: string, input: RuleInput, operator: string, now: int): (DB, Response<RouteRule>) {
    if !Live(db, ruleId) then (db, Failure(RuleNotFound))
    else if !Int32(input.priority) then (db, Failure(Database(NumberOutOfRange)))
    else
      var before, after := db.rules[ruleId], Edited(db.rules[ruleId], input, now);
      (db.(rules := db.rules[ruleId := UpdatedRow(before, after)],
           changes := db.changes +
             [Change(ruleId, Label(before, after), Some(Snapshot(before)), Some(Snapshot(after)), operator, now)]),
       Success(after))
  }

  function DeleteOf(db: DB, ruleId: string, operator: string, now: int): (DB, Option<ServiceError>) {
    if !Live(db, ruleId) then (db, Some(RuleNotFound))
    else
      var before := db.rules[ruleId];
      var after := DeletedRow(before, now);
      (db.(rules := db.rules[ruleId := after],
           changes := db.changes +
             [Change(ruleId, ActionDelete, Some(Snapshot(before)), Some(Snapshot(after)), operator, now)]),
       None)
  }

  // ---------------------------------------------------------------- what an edit leaves alone

  /** Only the rule table and its log change; no rule disappears, and the log only grows. */
  ghost predicate OnlyRules(db: DB, r: DB) {
    && r == db.(rules := r.rules, changes := r.changes)
    && IdsMatch(r.rules) && db.rules.Keys <= r.rules.Keys && db.changes <= r.changes
  }

  lemma CreateFrame(db: DB, input: RuleInput, newId: string, operator: string, now: int)
    requires IdsMatch(db.rules)
    ensures OnlyRules(db, CreateOf(db, input, newId, operator, now).0)
  {
  }

  lemma UpdateFrame(db: DB, ruleId: string, input: RuleInput, operator: string, now: int)
    requires IdsMatch(db.rules)
    ensures OnlyRules(db, UpdateOf(db, ruleId, input, operator, now).0)
  {
  }

  lemma DeleteFrame(db: DB, ruleId: string, operator: string, now: int)
    requires IdsMatch(db.rules)
    ensures OnlyRules(db, DeleteOf(db, ruleId, operator, now).0)
  {
  }
}
