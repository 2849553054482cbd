/** The change log, and what it says about the rule table. */
module RuleLog {
  import opened Domain
  import opened GoLib
  import opened RuleEdits
  import opened Tables

  /** A rule without its row id and its times: what the log and the table must agree on. */
  datatype Image = Image(
    ruleId: string, name: string, matcher: Matcher, topic: string, priority: int, enabled: bool, deleted: bool)

  function ImageOf(r: RouteRule): Image {
    Image(r.ruleId, r.name, StoredMatcher(r.matcher), r.topic, r.priority, r.enabled, r.deletedAt.Some?)
  }

  /** The entries of one rule, oldest first. */
  function History(changes: seq<Change>, ruleId: string): seq<Change> {
    if changes == [] then []
    else
      var n := |changes| - 1;
      History(changes[..n], ruleId) + (if changes[n].ruleId == ruleId then [changes[n]] else [])
  }

  /** The enabled flag as the labels alone give it: the created value, then each enable and disable. */
  function Flag(h: seq<Change>): bool {
    if h == [] then false
    else
      match Last(h).action
      case ActionCreate => Last(h).after.Some? && Last(h).after.value.enabled
      case ActionEnable => true
      case ActionDisable => false
      case _ => Flag(h[..|h| - 1])
  }

  /** The entry that opens a history. */
  predicate Opens(c: Change) {
    && c.action.ActionCreate? && c.before.None? && c.after.Some?
    && c.after.value.ruleId == c.ruleId && c.after.value.deletedAt.None?
  }

  /** An entry that goes on from the one before it, where the flag stood as given. */
  predicate GoesOn(previous: Change, c: Change, flag: bool) {
    && previous.after.Some? && c.before.Some? && c.after.Some?
    && c.ruleId == previous.ruleId && c.after.value.ruleId == c.ruleId
    && ImageOf(c.before.value) == ImageOf(previous.after.value)
    && !previous.action.ActionDelete?
    && match c.action
       case ActionCreate => false
       case ActionUpdate => c.after.value.enabled == flag && c.after.value.deletedAt.None?
       case ActionEnable => !flag && c.after.value.enabled && c.after.value.deletedAt.None?
       case ActionDisable => flag && !c.after.value.enabled && c.after.value.deletedAt.None?
       case ActionDelete =>
         ImageOf(c.after.value) == ImageOf(c.before.value).(enabled := false, deleted := true)
  }

  /** One create at the front, each entry going on from the one before, nothing behind a delete. */
  ghost predicate Chain(h: seq<Change>) {
    h != [] ==>
      && Opens(h[0])
      && forall i :: 0 < i < |h| ==> GoesOn(h[i - 1], h[i], Flag(h[..i]))
  }

  /** A history ends in the stored row; while the rule lives, the labels give its flag. */
  predicate EndsIn(h: seq<Change>, row: Option<RouteRule>) {
    && (h == [] <==> row.None?)
    && (h != [] ==>
          && Last(h).after.Some? && ImageOf(Last(h).after.value) == ImageOf(row.value)
          && (row.value.deletedAt.Some? <==> Last(h).action.ActionDelete?)
          && (row.value.deletedAt.None? ==> row.value.enabled == Flag(h)))
  }

  function Lookup(rules: map<string, RouteRule>, ruleId: string): Option<RouteRule> {
    if ruleId in rules then Some(rules[ruleId]) else None
  }

  ghost predicate HistoryFits(h: seq<Change>, row: Option<RouteRule>) {
    Chain(h) && EndsIn(h, row)
  }

  ghost predicate LogFits(rules: map<string, RouteRule>, changes: seq<Change>) {
    forall ruleId: string :: HistoryFits(History(changes, ruleId), Lookup(rules, ruleId))
  }

  // ---------------------------------------------------------------- appending

  lemma HistoryGrows(changes: seq<Change>, c: Change, ruleId: string)
    ensures History(changes + [c], ruleId) == History(changes, ruleId) + (if c.ruleId == ruleId then [c] else [])
  {
    assert (changes + [c])[..|changes|] == changes;
  }

  lemma FlagGrows(h: seq<Change>, c: Change)
    ensures
      Flag(h + [c]) ==
        match c.action
        case ActionCreate => c.after.Some? && c.after.value.enabled
        case ActionEnable => true
        case ActionDisable => false
        case _ => Flag(h)
  {
    assert (h + [c])[..|h|] == h;
  }

  lemma ChainGrows(h: seq<Change>, c: Change)
    requires Chain(h) && h != [] && GoesOn(Last(h), c, Flag(h))
    ensures Chain(h + [c])
  {
    var g := h + [c];
    forall i | 0 < i < |g| ensures GoesOn(g[i - 1], g[i], Flag(g[..i])) {
      if i < |h| {
        assert g[..i] == h[..i];
      } else {
        assert g[..i] == h;
      }
    }
  }

  lemma Appended(rules: map<string, RouteRule>, changes: seq<Change>, c: Change, row: RouteRule)
    requires LogFits(rules, changes)
    requires HistoryFits(History(changes, c.ruleId) + [c], Some(row))
    ensures LogFits(rules[c.ruleId := row], changes + [c])
  {
    forall ruleId: string ensures HistoryFits(History(changes + [c], ruleId), Lookup(rules[c.ruleId := row], ruleId)) {
      HistoryGrows(changes, c, ruleId);
      assert HistoryFits(History(changes, ruleId), Lookup(rules, ruleId));
      if ruleId != c.ruleId {
        assert History(changes + [c], ruleId) == History(changes, ruleId);
      }
    }
  }

  // ---------------------------------------------------------------- the three edits

  lemma CreateKeepsLog(db: DB, input: RuleInput, newId: string, operator: string, now: int)
    requires LogFits(db.rules, db.changes)
    ensures var r := CreateOf(db, input, newId, operator, now).0; LogFits(r.rules, r.changes)
  {
    var r := CreateOf(db, input, newId, operator, now).0;
    if r != db {
      var c := r.changes[|db.changes|];
      assert HistoryFits(History(db.changes, c.ruleId), Lookup(db.rules, c.ruleId));
      assert History(db.changes, c.ruleId) + [c] == [c];
      Appended(db.rules, db.changes, c, r.rules[c.ruleId]);
    }
  }

  /** An entry for a live rule, which its history accepts. */
  lemma EditAppended(db: DB, c: Change, row: RouteRule)
    requires LogFits(db.rules, db.changes) && Live(db, c.ruleId) && IdsMatch(db.rules)
    requires c.before == Some(Snapshot(db.rules[c.ruleId])) && c.after.Some?
    requires ImageOf(c.after.value) == ImageOf(row) && row.ruleId == c.ruleId
    requires
      match c.action
      case ActionCreate => false
      case ActionDelete =>
        && row.deletedAt.Some?
        && ImageOf(row) == ImageOf(db.rules[c.ruleId]).(enabled := false, deleted := true)
      case _ => row.deletedAt.None? && c.action == Label(db.rules[c.ruleId], row)
    ensures LogFits(db.rules[c.ruleId := row], db.changes + [c])
  {
    var h := History(db.changes, c.ruleId);
    assert HistoryFits(h, Lookup(db.rules, c.ruleId));
    assert GoesOn(Last(h), c, Flag(h)) by {
      LastHasId(db.changes, c.ruleId);
    }
    ChainGrows(h, c);
    FlagGrows(h, c);
    Appended(db.rules, db.changes, c, row);
  }

  lemma {:induction false} LastHasId(changes: seq<Change>, ruleId: string)
    ensures History(changes, ruleId) != [] ==> Last(History(changes, ruleId)).ruleId == ruleId
  {
    if changes != [] {
      LastHasId(changes[..|changes| - 1], ruleId);
    }
  }

  lemma UpdateKeepsLog(db: DB, ruleId: string, input: RuleInput, operator: string, now: int)
    requires LogFits(db.rules, db.changes) && IdsMatch(db.rules)
    ensures var r := UpdateOf(db, ruleId, input, operator, now).0; LogFits(r.rules, r.changes)
  {
    if Live(db, ruleId) && Int32(input.priority) {
      var r := UpdateOf(db, ruleId, input, operator, now).0;
      EditAppended(db, r.changes[|db.changes|], r.rules[ruleId]);
    }
  }

  lemma DeleteKeepsLog(db: DB, ruleId: string, operator: string, now: int)
    requires LogFits(db.rules, db.changes) && IdsMatch(db.rules)
    ensures var r := DeleteOf(db, ruleId, operator, now).0; LogFits(r.rules, r.changes)
  {
    if Live(db, ruleId) {
      var r := DeleteOf(db, ruleId, operator, now).0;
      EditAppended(db, r.changes[|db.changes|], r.rules[ruleId]);
    }
  }

  // ---------------------------------------------------------------- rebuilding the table

  /** The table as the entries after one another leave it. */
  function Rebuild(changes: seq<Change>): map<string, Image> {
    if changes == [] then map[]
    else
      var n := |changes| - 1;
      var before := Rebuild(changes[..n]);
      if changes[n].after.None? then before else before[changes[n].ruleId := ImageOf(changes[n].after.value)]
  }

  function Images(rules: map<string, RouteRule>): map<string, Image> {
    map ruleId | ruleId in rules :: ImageOf(rules[ruleId])
  }

  lemma {:induction false} RebuildIsLast(changes: seq<Change>, ruleId: string)
    requires forall c :: c in changes ==> c.after.Some?
    ensures ruleId in Rebuild(changes) <==> History(changes, ruleId) != []
    ensures
      ruleId in Rebuild(changes) ==>
        var last := Last(History(changes, ruleId));
        last.after.Some? && Rebuild(changes)[ruleId] == ImageOf(last.after.value)
  {
    if changes != [] {
      RebuildIsLast(changes[..|changes| - 1], ruleId);
    }
  }

  lemma {:induction false} InHistory(changes: seq<Change>, c: Change)
    requires c in changes
    ensures c in History(changes, c.ruleId)
  {
    var n := |changes| - 1;
    if c != changes[n] {
      assert changes == changes[..n] + [changes[n]];
      InHistory(changes[..n], c);
    }
  }

  lemma ChainHasImages(h: seq<Change>, c: Change)
    requires Chain(h) && c in h
    ensures c.after.Some?
  {
    var i :| 0 <= i < |h| && h[i] == c;
    if i > 0 {
      assert GoesOn(h[i - 1], h[i], Flag(h[..i]));
    }
  }

  /** Replaying the log rebuilds the rule table. */
  lemma LogRebuildsTable(rules: map<string, RouteRule>, changes: seq<Change>)
    requires LogFits(rules, changes)
    ensures Rebuild(changes) == Images(rules)
  {
    forall c | c in changes ensures c.after.Some? {
      InHistory(changes, c);
      assert HistoryFits(History(changes, c.ruleId), Lookup(rules, c.ruleId));
      ChainHasImages(History(changes, c.ruleId), c);
    }
    forall ruleId: string
      ensures ruleId in Rebuild(changes) <==> ruleId in rules
      ensures ruleId in rules ==> Rebuild(changes)[ruleId] == ImageOf(rules[ruleId])
    {
      RebuildIsLast(changes, ruleId);
      assert HistoryFits(History(changes, ruleId), Lookup(rules, ruleId));
    }
  }

  /** Between two labels that switch a rule on there is one that switches it off, and the reverse. */
  lemma LabelsAlternate(h: seq<Change>, i: nat, j: nat) returns (k: nat)
    requires Chain(h) && 0 < i < j < |h|
    requires h[i].action == h[j].action && (h[i].action.ActionEnable? || h[i].action.ActionDisable?)
    ensures i < k < j
    ensures h[k].action == if h[i].action.ActionEnable? then ActionDisable else ActionEnable
  {
    assert GoesOn(h[j - 1], h[j], Flag(h[..j]));
    k := FlagFlips(h, i, j);
  }

  lemma {:induction false} FlagFlips(h: seq<Change>, i: nat, j: nat) returns (k: nat)
    requires Chain(h) && 0 < i < j < |h|
    requires h[i].action.ActionEnable? || h[i].action.ActionDisable?
    requires Flag(h[..j]) != h[i].action.ActionEnable?
    ensures i < k < j && h[k].action == if h[i].action.ActionEnable? then ActionDisable else ActionEnable
    decreases j
  {
    var n := j - 1;
    assert h[..j] == h[..n] + [h[n]];
    FlagGrows(h[..n], h[n]);
    assert GoesOn(h[n - 1], h[n], Flag(h[..n]));
    if n > i && (h[n].action.ActionEnable? || h[n].action.ActionDisable?) {
      k := n;
    } else {
      k := FlagFlips(h, i, n);
    }
  }
}
