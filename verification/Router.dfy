/** Which rules an event matches, and in which order. */
module Router {
  import opened Domain
  import opened Expr
  import opened ExprDecision
  import opened ExprMachine
  import opened GoLib
  import opened Ordering

  predicate DeviceMatches(lib: Lib, pattern: string, deviceId: string) {
    pattern == "" || lib.pathMatch(pattern, deviceId) == Some(true)
  }

  /** The metrics of a matcher, none for a nil list. */
  function Listed(metrics: Option<seq<string>>): seq<string> {
    match metrics case None => [] case Some(list) => list
  }

  predicate MetricMatches(lib: Lib, metrics: Option<seq<string>>, metric: string) {
    Listed(metrics) == [] || exists m :: m in Listed(metrics) && lib.equalFold(m, metric)
  }

  function SubjectOf(ev: Event): Subject {
    Subject(ev.metric, ev.deviceId, ev.unit, ev.value)
  }

  predicate Selects(lib: Lib, ev: Event, rule: RouteRule) {
    && rule.enabled && rule.deletedAt.None?
    && DeviceMatches(lib, rule.matcher.devicePattern, ev.deviceId)
    && MetricMatches(lib, rule.matcher.metrics, ev.metric)
    && Matches(lib, rule.matcher.expr, SubjectOf(ev))
  }

  /** The event is one the rule asks for: the rule is in force, its pattern is empty or matches the device,
      its list is empty or names the metric, and its expression is true of the event. */
  ghost predicate Wanted(lib: Lib, ev: Event, rule: RouteRule) {
    && rule.enabled && rule.deletedAt == None
    && (rule.matcher.devicePattern == "" || lib.pathMatch(rule.matcher.devicePattern, ev.deviceId) == Some(true))
    && (|| rule.matcher.metrics == None || rule.matcher.metrics == Some([])
        || exists i :: 0 <= i < |rule.matcher.metrics.value| && lib.equalFold(rule.matcher.metrics.value[i], ev.metric))
    && TrueOf(lib, rule.matcher.expr, Subject(ev.metric, ev.deviceId, ev.unit, ev.value))
  }

  lemma SelectedIsWanted(lib: Lib, ev: Event, rule: RouteRule)
    ensures Selects(lib, ev, rule) <==> Wanted(lib, ev, rule)
  {
    MatchesTrue(lib, rule.matcher.expr, SubjectOf(ev));
    ListsMetric(lib, rule.matcher.metrics, ev.metric);
  }

  lemma ListsMetric(lib: Lib, metrics: Option<seq<string>>, metric: string)
    ensures MetricMatches(lib, metrics, metric) <==>
      metrics == None || metrics == Some([]) || exists i :: 0 <= i < |metrics.value| && lib.equalFold(metrics.value[i], metric)
  {
    if m :| m in Listed(metrics) && lib.equalFold(m, metric) {
      var i :| 0 <= i < |metrics.value| && metrics.value[i] == m;
    }
  }

  /** Higher priority first, then the smaller rule id. */
  predicate RuleBefore(a: RouteRule, b: RouteRule) {
    a.priority > b.priority || (a.priority == b.priority && StringLess(a.ruleId, b.ruleId))
  }

  /** The texts agree up to a place where the first ends, or has the smaller character. */
  ghost predicate Alphabetical(a: string, b: string) {
    exists k: nat :: k <= |a| && k < |b| && a[..k] == b[..k] && (k == |a| || a[k] < b[k])
  }

  lemma {:induction false} LessIsAlphabetical(a: string, b: string)
    ensures StringLess(a, b) <==> Alphabetical(a, b)
  {
    if b == "" {
    } else if a == "" {
      assert a[..0] == b[..0];
    } else if a[0] != b[0] {
      assert a[..0] == b[..0];
      if k: nat :| k <= |a| && k < |b| && a[..k] == b[..k] && (k == |a| || a[k] < b[k]) {
        HeadOfPrefix(a, b, k);
      }
    } else {
      LessIsAlphabetical(a[1..], b[1..]);
      TailsAlphabetical(a, b);
    }
  }

  lemma HeadOfPrefix(a: string, b: string, k: nat)
    requires a != "" && b != "" && k <= |a| && k <= |b|
    ensures k > 0 && a[..k] == b[..k] ==> a[0] == b[0]
  {
    if k > 0 && a[..k] == b[..k] {
      assert a[0] == a[..k][0] == b[..k][0];
    }
  }

  lemma TailsAlphabetical(a: string, b: string)
    requires a != "" && b != "" && a[0] == b[0]
    ensures Alphabetical(a, b) <==> Alphabetical(a[1..], b[1..])
  {
    if k: nat :| k <= |a| && k < |b| && a[..k] == b[..k] && (k == |a| || a[k] < b[k]) {
      assert k > 0;
      assert a[1..][..k - 1] == a[..k][1..] && b[1..][..k - 1] == b[..k][1..];
    }
    if k: nat :| k <= |a[1..]| && k < |b[1..]| && a[1..][..k] == b[1..][..k] && (k == |a[1..]| || a[1..][k] < b[1..][k]) {
      assert a[..k + 1] == [a[0]] + a[1..][..k] && b[..k + 1] == [b[0]] + b[1..][..k];
    }
  }

  /** Priorities never rise along the list, and among equal ones no id stands behind a later one. */
  ghost predicate ByPriorityAndId(rules: seq<RouteRule>) {
    forall i, j :: 0 <= i < j < |rules| ==>
      && rules[i].priority >= rules[j].priority
      && (rules[i].priority == rules[j].priority ==> !Alphabetical(rules[j].ruleId, rules[i].ruleId))
  }

  lemma InOrderMeans(rules: seq<RouteRule>)
    ensures InOrder(rules) <==> ByPriorityAndId(rules)
  {
    forall a: RouteRule, b: RouteRule
      ensures RuleBefore(b, a) <==>
        !(a.priority >= b.priority && (a.priority == b.priority ==> !Alphabetical(b.ruleId, a.ruleId)))
    {
      LessIsAlphabetical(b.ruleId, a.ruleId);
    }
  }

  /** With different ids each rule comes strictly before the ones behind it. */
  ghost predicate Listing(rules: seq<RouteRule>) {
    forall i, j :: 0 <= i < j < |rules| ==>
      || rules[i].priority > rules[j].priority
      || (rules[i].priority == rules[j].priority && Alphabetical(rules[i].ruleId, rules[j].ruleId))
  }

  lemma AscendingIsListing(rules: seq<RouteRule>)
    requires Ascending(RuleBefore, rules)
    ensures Listing(rules)
  {
    forall i, j | 0 <= i < j < |rules|
      ensures rules[i].priority > rules[j].priority
        || (rules[i].priority == rules[j].priority && Alphabetical(rules[i].ruleId, rules[j].ruleId))
    {
      assert RuleBefore(rules[i], rules[j]);
      LessIsAlphabetical(rules[i].ruleId, rules[j].ruleId);
    }
  }

  ghost predicate DistinctIds(rules: set<RouteRule>) {
    forall a, b :: a in rules && b in rules && a.ruleId == b.ruleId ==> a == b
  }

  lemma RuleBeforeIsTotal(rules: set<RouteRule>)
    requires DistinctIds(rules)
    ensures StrictTotal(RuleBefore, rules)
  {
    forall a | a in rules ensures !RuleBefore(a, a) {
      StringLessIrreflexive(a.ruleId);
    }
    forall a, b, c | a in rules && b in rules && c in rules && RuleBefore(a, b) && RuleBefore(b, c) ensures RuleBefore(a, c) {
      if a.priority == b.priority == c.priority {
        StringLessTransitive(a.ruleId, b.ruleId, c.ruleId);
      }
    }
    forall a, b | a in rules && b in rules && a != b ensures RuleBefore(a, b) || RuleBefore(b, a) {
      StringLessTotal(a.ruleId, b.ruleId);
    }
  }

  ghost function SelectedOf(lib: Lib, ev: Event, rules: set<RouteRule>): set<RouteRule> {
    set r | r in rules && Selects(lib, ev, r)
  }

  /** The matched rules, in order. */
  ghost function MatchOf(lib: Lib, ev: Event, rules: set<RouteRule>): seq<RouteRule>
    requires DistinctIds(rules)
  {
    RuleBeforeIsTotal(SelectedOf(lib, ev, rules));
    Ranked(RuleBefore, SelectedOf(lib, ev, rules))
  }

  // ---------------------------------------------------------------- the code

  method MatchMetrics(lib: Lib, metrics: Option<seq<string>>, metric: string) returns (found: bool)
    ensures found == MetricMatches(lib, metrics, metric)
  {
    var list := Listed(metrics);
    if |list| == 0 {
      return true;
    }
    for i := 0 to |list|
      invariant forall k :: 0 <= k < i ==> !lib.equalFold(list[k], metric)
    {
      if lib.equalFold(list[i], metric) {
        return true;
      }
    }
    found := false;
  }

  /** No rule stands behind one that it should precede. */
  ghost predicate InOrder(rules: seq<RouteRule>) {
    forall i, j :: 0 <= i < j < |rules| ==> !RuleBefore(rules[j], rules[i])
  }

  lemma InOrderIsAscending(rules: seq<RouteRule>)
    requires InOrder(rules) && DistinctIds(Elements(rules))
    requires forall i, j :: 0 <= i < j < |rules| ==> rules[i] != rules[j]
    ensures Ascending(RuleBefore, rules)
  {
    RuleBeforeIsTotal(Elements(rules));
    forall i, j | 0 <= i < j < |rules| ensures RuleBefore(rules[i], rules[j]) {
      assert rules[i] in Elements(rules) && rules[j] in Elements(rules);
    }
  }

  /** Position of a rule that no rule from lo on precedes. */
  method FirstInOrder(a: array<RouteRule>, lo: nat) returns (m: nat)
    requires lo < a.Length
    ensures lo <= m < a.Length
    ensures forall k :: lo <= k < a.Length ==> !RuleBefore(a[k], a[m])
  {
    m := lo;
    StringLessIrreflexive(a[lo].ruleId);
    for i := lo + 1 to a.Length
      invariant lo <= m < i
      invariant forall k :: lo <= k < i ==> !RuleBefore(a[k], a[m])
    {
      if RuleBefore(a[i], a[m]) {
        KeepsFirst(a[..i], lo, a[m], a[i]);
        m := i;
      }
    }
  }

  lemma KeepsFirst(rules: seq<RouteRule>, lo: nat, before: RouteRule, now: RouteRule)
    requires lo <= |rules| && RuleBefore(now, before)
    requires forall k :: lo <= k < |rules| ==> !RuleBefore(rules[k], before)
    ensures !RuleBefore(now, now)
    ensures forall k :: lo <= k < |rules| ==> !RuleBefore(rules[k], now)
  {
    StringLessIrreflexive(now.ruleId);
    forall k | lo <= k < |rules| ensures !RuleBefore(rules[k], now) {
      if RuleBefore(rules[k], now) && rules[k].priority == now.priority == before.priority {
        StringLessTransitive(rules[k].ruleId, now.ruleId, before.ruleId);
      }
    }
  }

  /** The first n rules are where they belong. */
  ghost predicate Settled(rules: seq<RouteRule>, n: nat) {
    forall j, k :: 0 <= j < n && j < k < |rules| ==> !RuleBefore(rules[k], rules[j])
  }

  function Swapped(rules: seq<RouteRule>, i: nat, m: nat): (r: seq<RouteRule>)
    requires i <= m < |rules|
    ensures multiset(r) == multiset(rules)
  {
    rules[i := rules[m]][m := rules[i]]
  }

  /** A sort, stable or not. */
  method SortSlice(a: array<RouteRule>)
    modifies a
    ensures InOrder(a[..]) && multiset(a[..]) == multiset(old(a[..]))
  {
    for i := 0 to a.Length
      invariant multiset(a[..]) == multiset(old(a[..])) && Settled(a[..], i)
    {
      var m := FirstInOrder(a, i);
      ghost var before := a[..];
      a[i], a[m] := a[m], a[i];
      assert a[..] == Swapped(before, i, m);
    }
  }

  /** The selected rules, as often as they are listed, with none behind one that it precedes. */
  ghost predicate IsMatch(lib: Lib, ev: Event, rules: seq<RouteRule>, matched: seq<RouteRule>) {
    && InOrder(matched)
    && forall r :: multiset(matched)[r] == if Selects(lib, ev, r) then multiset(rules)[r] else 0
  }

  /** The rules an event matches: exactly the selected ones, as often as they are listed, in the one
      right order, however the rules were listed and however the sort breaks ties. */
  method Match(lib: Lib, ev: Event, rules: seq<RouteRule>) returns (matched: seq<RouteRule>)
    ensures IsMatch(lib, ev, rules, matched)
    ensures ByPriorityAndId(matched) && forall r :: r in matched <==> r in rules && Wanted(lib, ev, r)
  {
    matched := [];
    for i := 0 to |rules|
      invariant forall r :: multiset(matched)[r] == if Selects(lib, ev, r) then multiset(rules[..i])[r] else 0
    {
      var rl := rules[i];
      assert rules[..i + 1] == rules[..i] + [rl];
      if !rl.enabled || rl.deletedAt.Some? {
        continue;
      }
      if !DeviceMatches(lib, rl.matcher.devicePattern, ev.deviceId) {
        continue;
      }
      var inMetrics := MatchMetrics(lib, rl.matcher.metrics, ev.metric);
      if !inMetrics {
        continue;
      }
      var holds := MatchExpr(lib, rl.matcher.expr, SubjectOf(ev));
      if !holds {
        continue;
      }
      matched := matched + [rl];
    }
    assert rules[..|rules|] == rules;
    var a := new RouteRule[|matched|](i requires 0 <= i < |matched| => matched[i]);
    assert a[..] == matched;
    SortSlice(a);
    matched := a[..];
    InOrderMeans(matched);
    MatchedAreWanted(lib, ev, rules, matched);
  }

  lemma MatchedAreWanted(lib: Lib, ev: Event, rules: seq<RouteRule>, matched: seq<RouteRule>)
    requires IsMatch(lib, ev, rules, matched)
    ensures forall r :: r in matched <==> r in rules && Wanted(lib, ev, r)
  {
    forall r ensures r in matched <==> r in rules && Wanted(lib, ev, r) {
      SelectedIsWanted(lib, ev, r);
      assert r in matched <==> multiset(matched)[r] > 0;
      assert r in rules <==> multiset(rules)[r] > 0;
    }
  }

  method Topics(rules: seq<RouteRule>) returns (topics: seq<string>)
    ensures |topics| == |rules| && forall i :: 0 <= i < |rules| ==> topics[i] == rules[i].topic
  {
    topics := [];
    for i := 0 to |rules|
      invariant |topics| == i && forall k :: 0 <= k < i ==> topics[k] == rules[k].topic
    {
      topics := topics + [rules[i].topic];
    }
  }

  // ---------------------------------------------------------------- matching is canonical

  /** With distinct ids, only one result keeps that promise. */
  lemma MatchIsCanonical(lib: Lib, ev: Event, rules: seq<RouteRule>, matched: seq<RouteRule>)
    requires IsMatch(lib, ev, rules, matched) && DistinctIds(Elements(rules))
    requires forall i, j :: 0 <= i < j < |rules| ==> rules[i] != rules[j]
    ensures matched == MatchOf(lib, ev, Elements(rules))
  {
    var S := SelectedOf(lib, ev, Elements(rules));
    RuleBeforeIsTotal(S);
    forall r ensures r in matched <==> r in S {
      assert r in multiset(matched) <==> multiset(matched)[r] > 0;
      assert r in rules <==> r in multiset(rules);
    }
    assert Elements(matched) == S;
    MatchedOnce(rules, matched);
    InOrderIsAscending(matched);
    RankedIsUnique(RuleBefore, S, matched);
  }

  lemma {:induction false} CountDistinct(rules: seq<RouteRule>)
    requires forall i, j :: 0 <= i < j < |rules| ==> rules[i] != rules[j]
    ensures forall r :: multiset(rules)[r] <= 1
  {
    if rules != [] {
      var n := |rules| - 1;
      CountDistinct(rules[..n]);
      assert rules == rules[..n] + [rules[n]];
      assert rules[n] !in rules[..n];
    }
  }

  lemma MatchedOnce(rules: seq<RouteRule>, matched: seq<RouteRule>)
    requires forall i, j :: 0 <= i < j < |rules| ==> rules[i] != rules[j]
    requires forall r :: multiset(matched)[r] <= multiset(rules)[r]
    ensures forall i, j :: 0 <= i < j < |matched| ==> matched[i] != matched[j]
  {
    CountDistinct(rules);
    forall i, j | 0 <= i < j < |matched| ensures matched[i] != matched[j] {
      assert matched == matched[..j] + ([matched[j]] + matched[j + 1..]);
      assert matched[i] in multiset(matched[..j]);
      assert multiset(matched)[matched[i]] <= 1;
    }
  }

  /** Any listing of the same rules gives the same result. */
  lemma MatchIgnoresListing(lib: Lib, ev: Event, rules: seq<RouteRule>, other: seq<RouteRule>,
                            matched: seq<RouteRule>, also: seq<RouteRule>)
    requires DistinctIds(Elements(rules)) && forall i, j :: 0 <= i < j < |rules| ==> rules[i] != rules[j]
    requires multiset(rules) == multiset(other)
    requires IsMatch(lib, ev, rules, matched) && IsMatch(lib, ev, other, also)
    ensures matched == also
  {
    MatchIsCanonical(lib, ev, rules, matched);
    MatchIsCanonical(lib, ev, rules, also);
  }

  lemma MatchContents(lib: Lib, ev: Event, rules: set<RouteRule>)
    requires DistinctIds(rules)
    ensures
      var matched := MatchOf(lib, ev, rules);
      && Elements(matched) == SelectedOf(lib, ev, rules) && Ascending(RuleBefore, matched)
      && (forall r :: r in matched <==> r in rules && Wanted(lib, ev, r)) && Listing(matched)
      && forall i, j :: 0 <= i < j < |matched| ==> matched[i].ruleId != matched[j].ruleId
  {
    var S := SelectedOf(lib, ev, rules);
    RuleBeforeIsTotal(S);
    RankedIsAscending(RuleBefore, S);
    AscendingIdsDiffer(MatchOf(lib, ev, rules));
    AscendingIsListing(MatchOf(lib, ev, rules));
    forall r ensures r in S <==> r in rules && Wanted(lib, ev, r) {
      SelectedIsWanted(lib, ev, r);
    }
    assert forall r :: r in MatchOf(lib, ev, rules) <==> r in Elements(MatchOf(lib, ev, rules));
  }

  lemma AscendingIdsDiffer(rules: seq<RouteRule>)
    requires DistinctIds(Elements(rules)) && Ascending(RuleBefore, rules)
    ensures forall i, j :: 0 <= i < j < |rules| ==> rules[i].ruleId != rules[j].ruleId
  {
    RuleBeforeIsTotal(Elements(rules));
    forall i, j | 0 <= i < j < |rules| ensures rules[i].ruleId != rules[j].ruleId {
      assert rules[i] in Elements(rules) && rules[j] in Elements(rules) && RuleBefore(rules[i], rules[j]);
    }
  }

  function Disabled(rule: RouteRule): RouteRule {
    rule.(enabled := false)
  }

  lemma SelectedWithout(lib: Lib, ev: Event, rules: set<RouteRule>, rule: RouteRule)
    ensures SelectedOf(lib, ev, rules - {rule} + {Disabled(rule)}) == SelectedOf(lib, ev, rules) - {rule}
  {
    assert !Selects(lib, ev, Disabled(rule));
  }

  /** Disabling a rule takes that rule out of the result and moves no other. */
  lemma DisablingRemovesOnlyThat(lib: Lib, ev: Event, rules: set<RouteRule>, rule: RouteRule)
    requires DistinctIds(rules) && rule in rules
    ensures
      var others := rules - {rule} + {Disabled(rule)};
      DistinctIds(others) && MatchOf(lib, ev, others) == Without(MatchOf(lib, ev, rules), rule)
  {
    var S := SelectedOf(lib, ev, rules);
    RuleBeforeIsTotal(S);
    RankedWithout(RuleBefore, S, rule);
    SelectedWithout(lib, ev, rules, rule);
    StillDistinct(rules, rule);
  }

  lemma StillDistinct(rules: set<RouteRule>, rule: RouteRule)
    requires DistinctIds(rules) && rule in rules
    ensures DistinctIds(rules - {rule} + {Disabled(rule)})
  {
  }
}
