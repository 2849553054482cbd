/** Any number of ingest requests at once. A request is a chain of small steps, each a read or a commit
    against the committed rows; the steps of different requests interleave freely, and other operations
    may come in between. */
module Concurrent {
  import opened Dedup
  import opened DeliveryHistory
  import opened Domain
  import opened GoLib
  import opened Ingest
  import opened Tables
  import opened Wire

  /** What a request was given: a line, the time it read, the event id it drew. */
  datatype Line = Line(raw: string, now: int, eventId: string)

  /** How far a request has come. */
  datatype Pc =
    | Begun
    | Parsed(tel: Telemetry)                                // line and device are fine
    | Opened(tel: Telemetry)                                // the fast check found nothing; the transaction is open
    | Unseen(tel: Telemetry)                                // nor did the check inside it
    | Chosen(tel: Telemetry, rules: seq<RouteRule>)         // the rules are read and matched; commit is next
    | Lost(tel: Telemetry)                                  // the check inside found the key: rolled back
    | Known(tel: Telemetry, existing: RawMessage)           // a duplicate, and of which message
    | Answered(about: Option<Telemetry>, answer: Response<TelemetryResult>)
    | Unanswered(tel: Telemetry)                            // it committed, and an error kept it from learning so
    | Stopped                                               // an error from the database ended it before its commit

  /** A request that committed, with its key and its event. */
  datatype Commit = Commit(i: nat, key: string, eventId: string)

  /** What took effect: a request that was told so, one whose answer lacks its lists, one that was not
      told, or another operation with the rows it left. */
  datatype Turn = Told(i: nat) | Blind(i: nat) | Untold(i: nat) | Between(db: DB)

  /** The rows at the start, the requests, the committed rows, how far each request has come, those that
      committed, and all that took effect, in order. */
  datatype World = World(
    start: DB, lines: seq<Line>, db: DB, pcs: seq<Pc>, commits: seq<Commit>, turns: seq<Turn>)

  function CommitRefused(lib: Lib, db: DB, t: Telemetry, line: Line): Option<Violation> {
    var refused := EventRefused(db, NewEvent(lib, t, line.eventId, line.now));
    if refused.Some? then refused
    else RawRefused(db, NewRaw(lib, t, line.raw, line.eventId, line.now))
  }

  /** How far a request is after its next step, where that step is not a commit. */
  ghost function NextPc(lib: Lib, window: int, db: DB, line: Line, pc: Pc): Pc
    requires IdsMatch(db.rules)
  {
    match pc
    case Begun =>
      (match Admitted(lib, db, line.raw, line.now)
       case Failure(error) => Answered(None, Failure(error))
       case Success(t) => Parsed(t))
    case Parsed(t) =>
      if SeenRecently(db, Key(lib, t), line.now, window) then Known(t, db.raws[Key(lib, t)]) else Opened(t)
    case Opened(t) => if Seen(db, Key(lib, t)) then Lost(t) else Unseen(t)
    case Unseen(t) => Chosen(t, Matched(lib, db, NewEvent(lib, t, line.eventId, line.now)))
    case Chosen(t, rules) =>
      var refused := CommitRefused(lib, db, t, line);
      if refused.Some? then Answered(Some(t), Failure(Database(refused.value)))
      else Answered(Some(t), Success(Routed(line.eventId, rules)))
    case Lost(t) =>
      if Key(lib, t) in db.raws then Known(t, db.raws[Key(lib, t)])
      else Answered(Some(t), Failure(DuplicateMessage))
    case Known(t, existing) => Answered(Some(t), Success(DuplicateOf(lib, db, existing)))
    case Answered(_, _) => pc
    case Unanswered(_) => pc
    case Stopped => pc
  }

  predicate Commits(lib: Lib, w: World, i: nat)
    requires i < |w.lines| == |w.pcs|
  {
    w.pcs[i].Chosen? && CommitRefused(lib, w.db, w.pcs[i].tel, w.lines[i]).None?
  }

  /** The next step of request i. */
  ghost function Advance(lib: Lib, window: int, w: World, i: nat): World
    requires i < |w.lines| == |w.pcs| && IdsMatch(w.db.rules)
  {
    if Commits(lib, w, i) then Committing(lib, w, i, w.pcs[i].tel, w.pcs[i].rules, true)
    else
      At(w, i, NextPc(lib, window, w.db, w.lines[i], w.pcs[i]), if w.pcs[i].Known? then [Told(i)] else [])
  }

  function At(w: World, i: nat, pc: Pc, more: seq<Turn>): World
    requires i < |w.pcs|
  {
    w.(pcs := w.pcs[i := pc], turns := w.turns + more)
  }

  /** How far the request is after a commit that it is told of, or not. */
  function AfterCommit(t: Telemetry, line: Line, rules: seq<RouteRule>, told: bool): (pc: Pc)
    ensures TelemetryOf(pc) == Some(t)
  {
    if told then Answered(Some(t), Success(Routed(line.eventId, rules))) else Unanswered(t)
  }

  function Committing(lib: Lib, w: World, i: nat, t: Telemetry, rules: seq<RouteRule>, told: bool): World
    requires i < |w.lines| == |w.pcs|
  {
    var line := w.lines[i];
    w.(pcs := w.pcs[i := AfterCommit(t, line, rules, told)],
       db := CommittedTo(lib, w.db, t, line.raw, line.now, line.eventId, rules),
       commits := w.commits + [Commit(i, Key(lib, t), line.eventId)],
       turns := w.turns + [if told then Told(i) else Untold(i)])
  }

  /** The answer to a duplicate whose event or rules could not be read. */
  function Unlisted(m: RawMessage): TelemetryResult {
    TelemetryResult(if m.eventId.None? then "" else m.eventId.value, true, [], [])
  }

  /** A rule edit, a replay, a worker pass or a device change: raw rows stay, events change in status only. */
  ghost predicate OtherStep(db: DB, r: DB) {
    && r.raws == db.raws && SameEvents(db.events, r.events)
    && db.devices.Keys <= r.devices.Keys
    && IdsMatch(r.rules) && RowsHaveEvents(r)
  }

  /** The next step of a request; an error that ends it; an error while it reads the lists of a duplicate,
      which it does not report; an error after its commit; another operation. */
  datatype Act = Go(i: nat) | Stop(i: nat) | Miss(i: nat) | Lose(i: nat) | Other(db: DB)

  predicate Ended(pc: Pc) {
    pc.Answered? || pc.Unanswered? || pc.Stopped?
  }

  ghost predicate CanAct(lib: Lib, w: World, act: Act)
    requires |w.lines| == |w.pcs|
  {
    match act
    case Go(i) => i < |w.pcs|
    case Stop(i) => i < |w.pcs| && !Ended(w.pcs[i]) && !w.pcs[i].Known?
    case Miss(i) => i < |w.pcs| && w.pcs[i].Known?
    case Lose(i) => i < |w.pcs| && Commits(lib, w, i)
    case Other(db) => OtherStep(w.db, db)
  }

  ghost function Next(lib: Lib, window: int, w: World, act: Act): World
    requires |w.lines| == |w.pcs| && IdsMatch(w.db.rules) && CanAct(lib, w, act)
  {
    match act
    case Go(i) => Advance(lib, window, w, i)
    case Stop(i) => At(w, i, Stopped, [])
    case Miss(i) => At(w, i, Answered(Some(w.pcs[i].tel), Success(Unlisted(w.pcs[i].existing))), [Blind(i)])
    case Lose(i) => Committing(lib, w, i, w.pcs[i].tel, w.pcs[i].rules, false)
    case Other(db) => w.(db := db, turns := w.turns + [Between(db)])
  }

  // ---------------------------------------------------------------- safety

  predicate AnsweredNew(pc: Pc) {
    pc.Answered? && pc.about.Some? && pc.answer.Success? && !pc.answer.value.duplicate
  }

  /** The request has committed. */
  predicate Stored(pc: Pc) {
    AnsweredNew(pc) || pc.Unanswered?
  }

  /** The request has committed its line under this key. */
  predicate StoredUnder(lib: Lib, pc: Pc, key: string) {
    match pc
    case Unanswered(t) => Key(lib, t) == key
    case Answered(Some(t), Success(r)) => !r.duplicate && Key(lib, t) == key
    case _ => false
  }

  function TelemetryOf(pc: Pc): Option<Telemetry> {
    match pc
    case Begun => None
    case Stopped => None
    case Answered(about, _) => about
    case _ => Some(pc.tel)
  }

  /** The telemetry a request works on is that of its line. */
  predicate LineOk(lib: Lib, line: Line, pc: Pc) {
    TelemetryOf(pc).Some? ==> ParseMessage(lib, line.raw, line.now) == Accepted(TelemetryOf(pc).value)
  }

  ghost predicate LinesOk(lib: Lib, lines: seq<Line>, pcs: seq<Pc>)
    requires |lines| == |pcs|
  {
    forall i :: 0 <= i < |pcs| ==> LineOk(lib, lines[i], pcs[i])
  }

  /** The rows of a request that committed. */
  predicate StoredRows(lib: Lib, db: DB, line: Line, t: Telemetry) {
    && Key(lib, t) in db.raws && line.eventId in db.events
    && db.raws[Key(lib, t)] == NewRaw(lib, t, line.raw, line.eventId, line.now)
  }

  /** What is known of one request. */
  predicate RequestOk(lib: Lib, db: DB, line: Line, pc: Pc, won: bool) {
    && (won <==> Stored(pc))
    && match pc
       case Unanswered(t) => StoredRows(lib, db, line, t)
       case Known(t, existing) => Key(lib, t) in db.raws && db.raws[Key(lib, t)] == existing
       case Answered(tel, Success(r)) =>
         && tel.Some? && Key(lib, tel.value) in db.raws
         && db.raws[Key(lib, tel.value)].eventId == Some(r.eventId)
         && (!r.duplicate ==> r.eventId == line.eventId && StoredRows(lib, db, line, tel.value))
       case _ => true
  }

  ghost predicate Won(commits: seq<Commit>, i: nat) {
    exists c :: c in commits && c.i == i
  }

  ghost predicate RequestsOk(lib: Lib, w: World)
    requires |w.lines| == |w.pcs|
  {
    forall i :: 0 <= i < |w.pcs| ==> RequestOk(lib, w.db, w.lines[i], w.pcs[i], Won(w.commits, i))
  }

  function Keys(commits: seq<Commit>): set<string> {
    set c | c in commits :: c.key
  }

  function EventIds(commits: seq<Commit>): set<string> {
    set c | c in commits :: c.eventId
  }

  ghost predicate DifferentKeys(commits: seq<Commit>) {
    forall c, d :: c in commits && d in commits && c.key == d.key ==> c == d
  }

  lemma OneMoreCommit(commits: seq<Commit>, c: Commit)
    requires DifferentKeys(commits) && c.key !in Keys(commits)
    ensures DifferentKeys(commits + [c])
    ensures Keys(commits + [c]) == Keys(commits) + {c.key} && EventIds(commits + [c]) == EventIds(commits) + {c.eventId}
    ensures forall i :: Won(commits + [c], i) <==> Won(commits, i) || i == c.i
  {
    var all := commits + [c];
    forall d | d in commits ensures d.key != c.key {
      assert d.key in Keys(commits);
    }
    assert c in all;
    forall i ensures Won(all, i) <==> Won(commits, i) || i == c.i {
      if Won(commits, i) {
        var d :| d in commits && d.i == i;
        assert d in all;
      }
    }
  }

  /** A commit is that of a request, under the key of its line and the id it drew. */
  predicate CommitOk(lib: Lib, w: World, c: Commit) {
    && c.i < |w.lines| == |w.pcs| && StoredUnder(lib, w.pcs[c.i], c.key) && w.lines[c.i].eventId == c.eventId
  }

  /** The commits have different keys, and account for every row that is new. */
  ghost predicate CommitsOk(lib: Lib, w: World) {
    && (forall c :: c in w.commits ==> CommitOk(lib, w, c))
    && DifferentKeys(w.commits)
    && RowsAccounted(w.start, w.db, w.commits)
  }

  ghost predicate RowsAccounted(start: DB, db: DB, commits: seq<Commit>) {
    && db.raws.Keys == start.raws.Keys + Keys(commits)
    && db.events.Keys == start.events.Keys + EventIds(commits)
    && (forall key :: key in start.raws ==> db.raws[key] == start.raws[key])
  }

  lemma CommittedKeys(lib: Lib, db: DB, t: Telemetry, line: Line, rules: seq<RouteRule>)
    requires CommitRefused(lib, db, t, line).None?
    ensures
      var r := CommittedTo(lib, db, t, line.raw, line.now, line.eventId, rules);
      && r.raws.Keys == db.raws.Keys + {Key(lib, t)} && r.events.Keys == db.events.Keys + {line.eventId}
      && Key(lib, t) !in db.raws && forall key :: key in db.raws ==> r.raws[key] == db.raws[key]
  {
  }

  lemma CommitIsAccounted(lib: Lib, start: DB, db: DB, commits: seq<Commit>, i: nat, t: Telemetry, line: Line, rules: seq<RouteRule>)
    requires RowsAccounted(start, db, commits) && DifferentKeys(commits) && CommitRefused(lib, db, t, line).None?
    ensures
      var c := Commit(i, Key(lib, t), line.eventId);
      RowsAccounted(start, CommittedTo(lib, db, t, line.raw, line.now, line.eventId, rules), commits + [c])
  {
    CommittedKeys(lib, db, t, line, rules);
    OneMoreCommit(commits, Commit(i, Key(lib, t), line.eventId));
  }

  ghost predicate Safe(lib: Lib, w: World) {
    && |w.lines| == |w.pcs|
    && IdsMatch(w.db.rules) && Paired(w.db) && Faithful(lib, w.db) && RowsHaveEvents(w.db)
    && LinesOk(lib, w.lines, w.pcs) && RequestsOk(lib, w) && CommitsOk(lib, w)
  }

  function Initial(db: DB, lines: seq<Line>): World {
    World(db, lines, db, seq(|lines|, i => Begun), [], [])
  }

  lemma InitialIsSafe(lib: Lib, db: DB, lines: seq<Line>)
    requires IdsMatch(db.rules) && Paired(db) && Faithful(lib, db) && RowsHaveEvents(db)
    ensures Safe(lib, Initial(db, lines))
  {
    NothingDone(lib, Initial(db, lines));
  }

  lemma NothingDone(lib: Lib, w: World)
    requires IdsMatch(w.db.rules) && Paired(w.db) && Faithful(lib, w.db) && RowsHaveEvents(w.db)
    requires |w.lines| == |w.pcs| && w.commits == [] && forall i :: 0 <= i < |w.pcs| ==> w.pcs[i] == Begun
    requires w.start == w.db
    ensures Safe(lib, w)
  {
    NothingRead(lib, w);
    NothingCommitted(lib, w);
  }

  lemma NothingCommitted(lib: Lib, w: World)
    requires w.start == w.db && w.commits == []
    ensures CommitsOk(lib, w)
  {
    assert Keys([]) == {} && EventIds([]) == {};
  }

  lemma NothingRead(lib: Lib, w: World)
    requires |w.lines| == |w.pcs| && w.commits == [] && forall i :: 0 <= i < |w.pcs| ==> w.pcs[i] == Begun
    ensures LinesOk(lib, w.lines, w.pcs) && RequestsOk(lib, w)
  {
    forall i | 0 <= i < |w.pcs|
      ensures RequestOk(lib, w.db, w.lines[i], w.pcs[i], Won(w.commits, i)) && LineOk(lib, w.lines[i], w.pcs[i])
    {
      BegunIsOk(lib, w.db, w.lines[i]);
    }
  }

  lemma BegunIsOk(lib: Lib, db: DB, line: Line)
    ensures RequestOk(lib, db, line, Begun, false) && LineOk(lib, line, Begun)
  {
  }

  /** A step that changes nothing but how far request i has come. */
  lemma PcKeepsSafe(lib: Lib, w: World, i: nat, pc: Pc, more: seq<Turn>)
    requires Safe(lib, w) && i < |w.pcs| && !Stored(w.pcs[i]) && RequestOk(lib, w.db, w.lines[i], pc, false)
    requires LineOk(lib, w.lines[i], pc)
    ensures Safe(lib, At(w, i, pc, more))
  {
    var r := At(w, i, pc, more);
    assert RequestOk(lib, w.db, w.lines[i], w.pcs[i], Won(w.commits, i));
    forall c | c in r.commits ensures CommitOk(lib, r, c) {
      assert CommitOk(lib, w, c);
    }
  }

  lemma OtherKeepsSafe(lib: Lib, w: World, db: DB)
    requires Safe(lib, w) && OtherStep(w.db, db)
    ensures Safe(lib, w.(db := db, turns := w.turns + [Between(db)]))
  {
    PairsFrame(w.db, db);
    FaithfulFrame(lib, w.db, db);
    var r := w.(db := db, turns := w.turns + [Between(db)]);
    forall i | 0 <= i < |r.pcs| ensures RequestOk(lib, r.db, r.lines[i], r.pcs[i], Won(r.commits, i)) {
      assert RequestOk(lib, w.db, w.lines[i], w.pcs[i], Won(w.commits, i));
    }
    forall c | c in r.commits ensures CommitOk(lib, r, c) {
      assert CommitOk(lib, w, c);
    }
  }

  lemma CommitKeepsSafe(lib: Lib, w: World, i: nat, t: Telemetry, rules: seq<RouteRule>, told: bool)
    requires Safe(lib, w) && i < |w.pcs| && w.pcs[i] == Chosen(t, rules)
    requires CommitRefused(lib, w.db, t, w.lines[i]).None?
    ensures Safe(lib, Committing(lib, w, i, t, rules, told))
  {
    var line := w.lines[i];
    CommitKeepsLines(lib, w.lines, w.pcs, i, t, rules, AfterCommit(t, line, rules, told));
    var r := Committing(lib, w, i, t, rules, told);
    CommitKeepsTables(lib, w.db, t, line, rules, r.db);
    CommitKeepsRequests(lib, w, i, t, rules, told);
    CommitKeepsCommits(lib, w, i, t, rules, told);
    AllParts(lib, r);
  }

  lemma AllParts(lib: Lib, w: World)
    requires |w.lines| == |w.pcs| && IdsMatch(w.db.rules) && Paired(w.db) && Faithful(lib, w.db) && RowsHaveEvents(w.db)
    requires LinesOk(lib, w.lines, w.pcs) && RequestsOk(lib, w) && CommitsOk(lib, w)
    ensures Safe(lib, w)
  {
  }

  lemma CommitKeepsTables(lib: Lib, db: DB, t: Telemetry, line: Line, rules: seq<RouteRule>, r: DB)
    requires IdsMatch(db.rules) && Paired(db) && Faithful(lib, db) && RowsHaveEvents(db)
    requires ParseMessage(lib, line.raw, line.now) == Accepted(t) && CommitRefused(lib, db, t, line).None?
    requires r == CommittedTo(lib, db, t, line.raw, line.now, line.eventId, rules)
    ensures IdsMatch(r.rules) && Paired(r) && Faithful(lib, r) && RowsHaveEvents(r)
  {
    CommittedKeepsPairs(lib, db, t, line.raw, line.now, line.eventId, rules);
    CommittedIsFaithful(lib, db, t, line.raw, line.now, line.eventId, rules);
    CommittedHasEvents(lib, db, t, line, rules);
  }

  lemma CommitKeepsLines(lib: Lib, lines: seq<Line>, pcs: seq<Pc>, i: nat, t: Telemetry, rules: seq<RouteRule>, pc: Pc)
    requires |lines| == |pcs| && LinesOk(lib, lines, pcs) && i < |pcs|
    requires pcs[i] == Chosen(t, rules) && TelemetryOf(pc) == Some(t)
    ensures LinesOk(lib, lines, pcs[i := pc]) && ParseMessage(lib, lines[i].raw, lines[i].now) == Accepted(t)
  {
    assert LineOk(lib, lines[i], pcs[i]);
    ChosenIsParsed(lib, lines[i], t, rules);
    SameTelemetry(lib, lines[i], pcs[i], pc);
    OneLineChanges(lib, lines, pcs, i, pc);
  }

  lemma SameTelemetry(lib: Lib, line: Line, pc: Pc, next: Pc)
    requires TelemetryOf(pc) == TelemetryOf(next) && LineOk(lib, line, pc)
    ensures LineOk(lib, line, next)
  {
  }

  lemma OneLineChanges(lib: Lib, lines: seq<Line>, pcs: seq<Pc>, i: nat, pc: Pc)
    requires |lines| == |pcs| && LinesOk(lib, lines, pcs) && i < |pcs| && LineOk(lib, lines[i], pc)
    ensures LinesOk(lib, lines, pcs[i := pc])
  {
  }

  lemma ChosenIsParsed(lib: Lib, line: Line, t: Telemetry, rules: seq<RouteRule>)
    requires LineOk(lib, line, Chosen(t, rules))
    ensures ParseMessage(lib, line.raw, line.now) == Accepted(t)
  {
    assert TelemetryOf(Chosen(t, rules)) == Some(t);
  }

  lemma CommittedHasEvents(lib: Lib, db: DB, t: Telemetry, line: Line, rules: seq<RouteRule>)
    requires RowsHaveEvents(db)
    ensures RowsHaveEvents(CommittedTo(lib, db, t, line.raw, line.now, line.eventId, rules))
  {
  }

  lemma CommitKeepsRequest(lib: Lib, db: DB, t: Telemetry, winner: Line, rules: seq<RouteRule>, line: Line, pc: Pc, won: bool)
    requires RequestOk(lib, db, line, pc, won) && CommitRefused(lib, db, t, winner).None?
    ensures RequestOk(lib, CommittedTo(lib, db, t, winner.raw, winner.now, winner.eventId, rules), line, pc, won)
  {
  }

  lemma WinnerIsOk(lib: Lib, db: DB, t: Telemetry, line: Line, rules: seq<RouteRule>, told: bool)
    ensures
      var r := CommittedTo(lib, db, t, line.raw, line.now, line.eventId, rules);
      RequestOk(lib, r, line, AfterCommit(t, line, rules, told), true)
  {
  }

  lemma CommitKeepsRequests(lib: Lib, w: World, i: nat, t: Telemetry, rules: seq<RouteRule>, told: bool)
    requires Safe(lib, w) && i < |w.pcs| && w.pcs[i] == Chosen(t, rules)
    requires CommitRefused(lib, w.db, t, w.lines[i]).None?
    ensures RequestsOk(lib, Committing(lib, w, i, t, rules, told))
  {
    var r := Committing(lib, w, i, t, rules, told);
    OneMoreCommit(w.commits, Commit(i, Key(lib, t), w.lines[i].eventId));
    forall j | 0 <= j < |r.pcs| ensures RequestOk(lib, r.db, r.lines[j], r.pcs[j], Won(r.commits, j)) {
      assert RequestOk(lib, w.db, w.lines[j], w.pcs[j], Won(w.commits, j));
      if j == i {
        WinnerIsOk(lib, w.db, t, w.lines[i], rules, told);
      } else {
        CommitKeepsRequest(lib, w.db, t, w.lines[i], rules, w.lines[j], w.pcs[j], Won(w.commits, j));
      }
    }
  }

  lemma CommitsStayOk(lib: Lib, w: World, i: nat, t: Telemetry, rules: seq<RouteRule>, told: bool)
    requires |w.lines| == |w.pcs| && CommitsOk(lib, w) && i < |w.pcs| && w.pcs[i] == Chosen(t, rules)
    ensures
      var r := Committing(lib, w, i, t, rules, told);
      forall d :: d in r.commits ==> CommitOk(lib, r, d)
  {
    var r := Committing(lib, w, i, t, rules, told);
    forall d | d in r.commits ensures CommitOk(lib, r, d) {
      if d in w.commits {
        CommitIs(lib, w, d);
        OthersCommitStays(lib, w, r, i, d);
      }
    }
  }

  lemma OthersCommitStays(lib: Lib, w: World, r: World, i: nat, d: Commit)
    requires i < |w.pcs| && !Stored(w.pcs[i]) && r.lines == w.lines && |r.pcs| == |w.pcs|
    requires forall j :: 0 <= j < |w.pcs| && j != i ==> r.pcs[j] == w.pcs[j]
    requires CommitOk(lib, w, d)
    ensures CommitOk(lib, r, d)
  {
  }

  lemma CommitKeepsCommits(lib: Lib, w: World, i: nat, t: Telemetry, rules: seq<RouteRule>, told: bool)
    requires Safe(lib, w) && i < |w.pcs| && w.pcs[i] == Chosen(t, rules)
    requires CommitRefused(lib, w.db, t, w.lines[i]).None?
    ensures CommitsOk(lib, Committing(lib, w, i, t, rules, told))
  {
    CommitsStayOk(lib, w, i, t, rules, told);
    OneMoreCommit(w.commits, Commit(i, Key(lib, t), w.lines[i].eventId));
    CommitIsAccounted(lib, w.start, w.db, w.commits, i, t, w.lines[i], rules);
  }

  lemma NextPcOk(lib: Lib, window: int, db: DB, line: Line, pc: Pc)
    requires IdsMatch(db.rules) && RequestOk(lib, db, line, pc, false) && Paired(db)
    requires pc.Chosen? ==> CommitRefused(lib, db, pc.tel, line).Some?
    ensures RequestOk(lib, db, line, NextPc(lib, window, db, line, pc), false)
  {
    if pc.Known? {
      DuplicateNames(lib, db, pc.existing);
    }
  }

  lemma FirstStepParses(lib: Lib, window: int, db: DB, line: Line)
    requires IdsMatch(db.rules)
    ensures LineOk(lib, line, NextPc(lib, window, db, line, Begun))
  {
    AdmittedIsParsed(lib, db, line.raw, line.now);
  }

  lemma LaterStepsKeepTelemetry(lib: Lib, window: int, db: DB, line: Line, pc: Pc)
    requires IdsMatch(db.rules) && !pc.Begun?
    ensures TelemetryOf(NextPc(lib, window, db, line, pc)) == TelemetryOf(pc)
  {
  }

  lemma NextLineOk(lib: Lib, window: int, db: DB, line: Line, pc: Pc)
    requires IdsMatch(db.rules) && LineOk(lib, line, pc)
    ensures LineOk(lib, line, NextPc(lib, window, db, line, pc))
  {
    if pc.Begun? {
      FirstStepParses(lib, window, db, line);
    } else {
      LaterStepsKeepTelemetry(lib, window, db, line, pc);
    }
  }

  lemma DoneStays(lib: Lib, window: int, w: World, i: nat)
    requires i < |w.lines| == |w.pcs| && IdsMatch(w.db.rules) && Ended(w.pcs[i])
    ensures Advance(lib, window, w, i) == w
  {
    assert w.pcs[i := w.pcs[i]] == w.pcs && w.turns + [] == w.turns;
  }

  lemma GoKeepsSafe(lib: Lib, window: int, w: World, i: nat)
    requires Safe(lib, w) && i < |w.pcs|
    ensures Safe(lib, Advance(lib, window, w, i))
  {
    assert RequestOk(lib, w.db, w.lines[i], w.pcs[i], Won(w.commits, i));
    if Commits(lib, w, i) {
      CommitKeepsSafe(lib, w, i, w.pcs[i].tel, w.pcs[i].rules, true);
    } else if Stored(w.pcs[i]) {
      DoneStays(lib, window, w, i);
    } else {
      NextPcOk(lib, window, w.db, w.lines[i], w.pcs[i]);
      assert LineOk(lib, w.lines[i], w.pcs[i]);
      NextLineOk(lib, window, w.db, w.lines[i], w.pcs[i]);
      PcKeepsSafe(lib, w, i, NextPc(lib, window, w.db, w.lines[i], w.pcs[i]), if w.pcs[i].Known? then [Told(i)] else []);
    }
  }

  /** Answering without the lists. */
  lemma MissKeepsSafe(lib: Lib, w: World, i: nat)
    requires Safe(lib, w) && i < |w.pcs| && w.pcs[i].Known?
    ensures Safe(lib, At(w, i, Answered(Some(w.pcs[i].tel), Success(Unlisted(w.pcs[i].existing))), [Blind(i)]))
  {
    var pc := Answered(Some(w.pcs[i].tel), Success(Unlisted(w.pcs[i].existing)));
    assert RequestOk(lib, w.db, w.lines[i], w.pcs[i], Won(w.commits, i));
    assert LineOk(lib, w.lines[i], w.pcs[i]);
    SameTelemetry(lib, w.lines[i], w.pcs[i], pc);
    UnlistedOk(lib, w.db, w.lines[i], w.pcs[i].tel, w.pcs[i].existing, Won(w.commits, i));
    PcKeepsSafe(lib, w, i, pc, [Blind(i)]);
  }

  lemma UnlistedOk(lib: Lib, db: DB, line: Line, t: Telemetry, existing: RawMessage, won: bool)
    requires RequestOk(lib, db, line, Known(t, existing), won) && Paired(db)
    ensures !won && RequestOk(lib, db, line, Answered(Some(t), Success(Unlisted(existing))), false)
  {
  }

  lemma StopKeepsSafe(lib: Lib, w: World, i: nat)
    requires Safe(lib, w) && i < |w.pcs| && !Stored(w.pcs[i])
    ensures Safe(lib, At(w, i, Stopped, []))
  {
    assert RequestOk(lib, w.db, w.lines[i], w.pcs[i], Won(w.commits, i));
    PcKeepsSafe(lib, w, i, Stopped, []);
  }

  /** Every step of every interleaving keeps it all. */
  lemma NextKeepsSafe(lib: Lib, window: int, w: World, act: Act)
    requires Safe(lib, w) && CanAct(lib, w, act)
    ensures Safe(lib, Next(lib, window, w, act))
  {
    match act {
      case Go(i) => GoKeepsSafe(lib, window, w, i);
      case Stop(i) => StopKeepsSafe(lib, w, i);
      case Miss(i) => MissKeepsSafe(lib, w, i);
      case Lose(i) => CommitKeepsSafe(lib, w, i, w.pcs[i].tel, w.pcs[i].rules, false);
      case Other(db) => OtherKeepsSafe(lib, w, db);
    }
  }

  /** w is what an interleaving leads to. */
  ghost predicate Reached(lib: Lib, window: int, first: World, acts: seq<Act>, w: World) {
    if acts == [] then w == first
    else
      var n := |acts| - 1;
      exists before ::
        && Reached(lib, window, first, acts[..n], before)
        && |before.lines| == |before.pcs| && IdsMatch(before.db.rules) && CanAct(lib, before, acts[n])
        && w == Next(lib, window, before, acts[n])
  }

  lemma {:induction false} ReachedIsSafe(lib: Lib, window: int, db: DB, lines: seq<Line>, acts: seq<Act>, w: World)
    requires IdsMatch(db.rules) && Paired(db) && Faithful(lib, db) && RowsHaveEvents(db)
    requires Reached(lib, window, Initial(db, lines), acts, w)
    ensures Safe(lib, w)
    decreases |acts|
  {
    if acts == [] {
      InitialIsSafe(lib, db, lines);
    } else {
      var n := |acts| - 1;
      var before :|
        && Reached(lib, window, Initial(db, lines), acts[..n], before)
        && |before.lines| == |before.pcs| && IdsMatch(before.db.rules) && CanAct(lib, before, acts[n])
        && w == Next(lib, window, before, acts[n]);
      ReachedIsSafe(lib, window, db, lines, acts[..n], before);
      NextKeepsSafe(lib, window, before, acts[n]);
    }
  }

  // ---------------------------------------------------------------- what safety means

  predicate Succeeded(pc: Pc) {
    pc.Answered? && pc.about.Some? && pc.answer.Success?
  }

  /** A request that committed has its entry among the commits. */
  lemma CommitOf(lib: Lib, w: World, i: nat, key: string) returns (c: Commit)
    requires |w.lines| == |w.pcs| && RequestsOk(lib, w) && CommitsOk(lib, w)
    requires i < |w.pcs| && StoredUnder(lib, w.pcs[i], key)
    ensures c in w.commits && c.i == i && c.key == key
  {
    assert RequestOk(lib, w.db, w.lines[i], w.pcs[i], Won(w.commits, i));
    c :| c in w.commits && c.i == i;
    CommitIs(lib, w, c);
  }

  lemma CommitIs(lib: Lib, w: World, c: Commit)
    requires CommitsOk(lib, w) && c in w.commits
    ensures c.i < |w.lines| == |w.pcs| && StoredUnder(lib, w.pcs[c.i], c.key) && w.lines[c.i].eventId == c.eventId
  {
  }

  /** Of the requests for one key, at most one commits. */
  lemma OneStores(lib: Lib, w: World, i: nat, j: nat, key: string)
    requires Safe(lib, w) && i < |w.pcs| && j < |w.pcs|
    requires StoredUnder(lib, w.pcs[i], key) && StoredUnder(lib, w.pcs[j], key)
    ensures i == j
  {
    var c := CommitOf(lib, w, i, key);
    var d := CommitOf(lib, w, j, key);
  }

  /** Of the requests for one key, at most one stores anything, and all that succeed, duplicates too,
      name the event of the one stored message. */
  lemma OneWinner(lib: Lib, w: World, i: nat, j: nat)
    requires Safe(lib, w) && i < |w.pcs| && j < |w.pcs| && Succeeded(w.pcs[i]) && Succeeded(w.pcs[j])
    requires Key(lib, w.pcs[i].about.value) == Key(lib, w.pcs[j].about.value)
    ensures w.pcs[i].answer.value.eventId == w.pcs[j].answer.value.eventId
    ensures !w.pcs[i].answer.value.duplicate && !w.pcs[j].answer.value.duplicate ==> i == j
    ensures
      var key, id := Key(lib, w.pcs[i].about.value), w.pcs[i].answer.value.eventId;
      RawOfEvent(w.db, key, id) && Recites(lib, w.db.raws[key], w.db.events[id])
  {
    assert RequestOk(lib, w.db, w.lines[i], w.pcs[i], Won(w.commits, i));
    assert RequestOk(lib, w.db, w.lines[j], w.pcs[j], Won(w.commits, j));
    if AnsweredNew(w.pcs[i]) && AnsweredNew(w.pcs[j]) {
      OneStores(lib, w, i, j, Key(lib, w.pcs[i].about.value));
    }
  }

  /** No other request drew the id of request i, and no event had it. */
  predicate DrewAlone(w: World, i: nat)
    requires i < |w.lines|
  {
    && w.lines[i].eventId !in w.start.events
    && forall j :: 0 <= j < |w.lines| && j != i ==> w.lines[j].eventId != w.lines[i].eventId
  }

  /** A request that did not commit leaves nothing: no event, no raw row, no delivery carries the id it drew. */
  lemma LoserLeavesNothing(lib: Lib, w: World, i: nat)
    requires Safe(lib, w) && i < |w.pcs| && !Stored(w.pcs[i]) && DrewAlone(w, i)
    ensures w.lines[i].eventId !in w.db.events
    ensures forall key :: key in w.db.raws ==> w.db.raws[key].eventId != Some(w.lines[i].eventId)
    ensures forall d :: d in w.db.deliveries ==> d.eventId != w.lines[i].eventId
  {
    var id := w.lines[i].eventId;
    NotCommitted(lib, w, i);
    forall key | key in w.db.raws ensures w.db.raws[key].eventId != Some(id) {
      assert RawOfEvent(w.db, key, w.db.raws[key].eventId.value);
    }
  }

  lemma NotCommitted(lib: Lib, w: World, i: nat)
    requires Safe(lib, w) && i < |w.pcs| && !Stored(w.pcs[i]) && DrewAlone(w, i)
    ensures w.lines[i].eventId !in w.db.events
  {
    var id := w.lines[i].eventId;
    forall c | c in w.commits ensures c.eventId != id {
      assert CommitOk(lib, w, c);
    }
    assert id !in EventIds(w.commits);
  }

  const LOST_RACE: Response<TelemetryResult> := Failure(Database(UniqueViolation))

  /** At its commit a request gets the uniqueness error exactly when its id or its key is taken by then. */
  lemma LateLoserFails(lib: Lib, window: int, w: World, i: nat)
    requires IdsMatch(w.db.rules) && i < |w.lines| == |w.pcs| && w.pcs[i].Chosen?
    ensures
      var t := w.pcs[i].tel;
      Advance(lib, window, w, i).pcs[i] == Answered(Some(t), LOST_RACE) <==>
      w.lines[i].eventId in w.db.events || (t.deviceId in w.db.devices && Key(lib, t) in w.db.raws)
  {
  }

  /** Another request for the same key has committed. */
  predicate Beaten(lib: Lib, w: World, i: nat, key: string) {
    exists j :: 0 <= j < |w.pcs| && j != i && StoredUnder(lib, w.pcs[j], key)
  }

  /** So with ids of their own and a key that was new, it is exactly the one that comes second that gets
      an error, not a duplicate. */
  lemma SecondGetsTheError(lib: Lib, window: int, w: World, i: nat)
    requires Safe(lib, w) && i < |w.pcs| && w.pcs[i].Chosen? && DrewAlone(w, i)
    requires Key(lib, w.pcs[i].tel) !in w.start.raws && w.pcs[i].tel.deviceId in w.db.devices
    ensures Advance(lib, window, w, i).pcs[i] == Answered(Some(w.pcs[i].tel), LOST_RACE) <==>
            Beaten(lib, w, i, Key(lib, w.pcs[i].tel))
  {
    NotCommitted(lib, w, i);
    LateLoserFails(lib, window, w, i);
    TakenByARequest(lib, w, i, Key(lib, w.pcs[i].tel));
  }

  lemma TakenByARequest(lib: Lib, w: World, i: nat, key: string)
    requires Safe(lib, w) && i < |w.pcs| && !Stored(w.pcs[i]) && key !in w.start.raws
    ensures key in w.db.raws <==> Beaten(lib, w, i, key)
  {
    if key in w.db.raws {
      CommittedByAnother(lib, w, i, key);
    }
    if j: nat :| j < |w.pcs| && j != i && StoredUnder(lib, w.pcs[j], key) {
      var c := CommitOf(lib, w, j, key);
      assert key in Keys(w.commits);
    }
  }

  lemma CommittedByAnother(lib: Lib, w: World, i: nat, key: string)
    requires CommitsOk(lib, w) && i < |w.pcs| && !Stored(w.pcs[i]) && key !in w.start.raws && key in w.db.raws
    ensures Beaten(lib, w, i, key)
  {
    var c :| c in w.commits && c.key == key;
    CommitIs(lib, w, c);
  }
}
