/** What creating, changing and deleting a rule stores, logs and answers, field by field. */
module RuleContents {
  import opened Domain
  import opened GoLib
  import opened Ingest
  import opened RuleEdits
  import opened Tables

  /** The columns of a matcher: an empty list of metrics reads back as none. */
  predicate MatcherKept(m: Matcher, stored: Matcher) {
    && stored.devicePattern == m.devicePattern && stored.expr == m.expr
    && stored.metrics == if m.metrics == Some([]) then None else m.metrics
  }

  /** The rows agree in everything but the row id and the spelling of an empty list. */
  predicate SameRule(r: RouteRule, s: RouteRule) {
    && s.ruleId == r.ruleId && s.name == r.name && MatcherKept(r.matcher, s.matcher) && s.topic == r.topic
    && s.priority == r.priority && s.enabled == r.enabled && s.deletedAt == r.deletedAt
    && s.createdAt == r.createdAt && s.updatedAt == r.updatedAt
  }

  /** One entry more in the log. */
  predicate Logged(db: DB, r: DB, ruleId: string, action: ChangeAction, operator: string, now: int) {
    && |r.changes| == |db.changes| + 1 && r.changes[..|db.changes|] == db.changes
    && var c := r.changes[|db.changes|];
       c.ruleId == ruleId && c.action == action && c.operator == operator && c.changedAt == now
  }

  /** Every other rule, and every other table, is as it was. */
  predicate OnlyThisRule(db: DB, r: DB, ruleId: string) {
    && r.devices == db.devices && r.raws == db.raws && r.events == db.events && r.deliveries == db.deliveries
    && ruleId in r.rules && r.rules.Keys == db.rules.Keys + {ruleId}
    && forall k :: k in db.rules && k != ruleId ==> r.rules[k] == db.rules[k]
  }

  predicate InInt32(n: int) {
    -2_147_483_648 <= n <= 2_147_483_647
  }

  // ---------------------------------------------------------------- creating

  /** A new rule is what the input says, under the given id or the drawn one, and neither deleted nor older
      than now. */
  predicate NewRule(r: RouteRule, input: RuleInput, newId: string, now: int) {
    && r.ruleId == (if input.ruleId == "" then newId else input.ruleId)
    && r.name == input.name && r.matcher == input.matcher && r.topic == input.topic
    && r.priority == input.priority && r.enabled == input.enabled
    && r.deletedAt == None && r.createdAt == now && r.updatedAt == now
  }

  predicate CanCreate(db: DB, input: RuleInput, newId: string) {
    && input.name != "" && input.topic != "" && InInt32(input.priority)
    && (if input.ruleId == "" then newId else input.ruleId) !in db.rules
  }

  lemma CreateStores(db: DB, input: RuleInput, newId: string, operator: string, now: int)
    requires CanCreate(db, input, newId)
    ensures
      var (r, answer) := CreateOf(db, input, newId, operator, now);
      && answer.Success? && NewRule(answer.value, input, newId, now) && answer.value.id == 0
      && OnlyThisRule(db, r, answer.value.ruleId) && SameRule(answer.value, r.rules[answer.value.ruleId])
      && r.rules[answer.value.ruleId].id == |db.rules| + 1
  {
  }

  lemma CreateLogs(db: DB, input: RuleInput, newId: string, operator: string, now: int)
    requires CanCreate(db, input, newId)
    ensures
      var (r, answer) := CreateOf(db, input, newId, operator, now);
      && answer.Success? && Logged(db, r, answer.value.ruleId, ActionCreate, operator, now)
      && var c := r.changes[|db.changes|];
         c.before == None && c.after.Some? && SameRule(answer.value, c.after.value)
  {
  }

  lemma CreateRefuses(db: DB, input: RuleInput, newId: string, operator: string, now: int)
    ensures
      var answer := CreateOf(db, input, newId, operator, now);
      var id := if input.ruleId == "" then newId else input.ruleId;
      if input.name == "" then answer == (db, Failure(InvalidField("name")))
      else if input.topic == "" then answer == (db, Failure(InvalidField("topic")))
      else if id in db.rules then answer == (db, Failure(RuleConflict))
      else if !InInt32(input.priority) then answer == (db, Failure(Database(NumberOutOfRange)))
      else answer.1.Success?
  {
  }

  // ---------------------------------------------------------------- changing

  /** The rule as changed: name and topic of the input where they are not empty, its matcher unless it is
      all empty, its priority and its flag. */
  predicate ChangedRule(r: RouteRule, was: RouteRule, input: RuleInput, now: int) {
    && r.name == (if input.name == "" then was.name else input.name)
    && r.topic == (if input.topic == "" then was.topic else input.topic)
    && r.matcher == (if input.matcher == Matcher("", None, "") then was.matcher else input.matcher)
    && r.priority == input.priority && r.enabled == input.enabled && r.updatedAt == now
    && r.id == was.id && r.ruleId == was.ruleId && r.deletedAt == was.deletedAt && r.createdAt == was.createdAt
  }

  lemma UpdateStores(db: DB, ruleId: string, input: RuleInput, operator: string, now: int)
    requires ruleId in db.rules && db.rules[ruleId].deletedAt == None && InInt32(input.priority)
    ensures
      var (r, answer) := UpdateOf(db, ruleId, input, operator, now);
      var was := db.rules[ruleId];
      && answer.Success? && ChangedRule(answer.value, was, input, now)
      && OnlyThisRule(db, r, ruleId)
      && SameRule(answer.value, r.rules[ruleId]) && r.rules[ruleId].id == was.id
      && Logged(db, r, ruleId,
           if was.enabled == input.enabled then ActionUpdate else if input.enabled then ActionEnable else ActionDisable,
           operator, now)
      && var c := r.changes[|db.changes|];
         && c.before.Some? && SameRule(was, c.before.value) && c.before.value.id == was.id
         && c.after.Some? && SameRule(answer.value, c.after.value) && c.after.value.id == was.id
  {
  }

  lemma UpdateRefuses(db: DB, ruleId: string, input: RuleInput, operator: string, now: int)
    ensures
      var answer := UpdateOf(db, ruleId, input, operator, now);
      if ruleId !in db.rules || db.rules[ruleId].deletedAt != None then answer == (db, Failure(RuleNotFound))
      else if !InInt32(input.priority) then answer == (db, Failure(Database(NumberOutOfRange)))
      else answer.1.Success?
  {
  }

  // ---------------------------------------------------------------- deleting

  /** A deleted rule is disabled and carries the time; everything else about it stays. */
  lemma DeleteStores(db: DB, ruleId: string, operator: string, now: int)
    requires ruleId in db.rules && db.rules[ruleId].deletedAt == None
    ensures
      var (r, error) := DeleteOf(db, ruleId, operator, now);
      var was := db.rules[ruleId];
      && error == None && OnlyThisRule(db, r, ruleId)
      && r.rules[ruleId] == RouteRule(
           was.id, was.ruleId, was.name, was.matcher, was.topic, was.priority, false, Some(now), was.createdAt, now)
      && Logged(db, r, ruleId, ActionDelete, operator, now)
      && var c := r.changes[|db.changes|];
         && c.before.Some? && SameRule(was, c.before.value) && c.before.value.id == was.id
         && c.after.Some? && SameRule(r.rules[ruleId], c.after.value) && c.after.value.id == was.id
  {
  }

  lemma DeleteRefuses(db: DB, ruleId: string, operator: string, now: int)
    requires ruleId !in db.rules || db.rules[ruleId].deletedAt != None
    ensures DeleteOf(db, ruleId, operator, now) == (db, Some(RuleNotFound))
  {
  }
}
