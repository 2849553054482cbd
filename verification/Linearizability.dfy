/** Concurrent requests behave as if each that takes effect had run alone, at one moment of its run. */
module Linearizability {
  import opened Concurrent
  import opened Dedup
  import opened Domain
  import opened GoLib
  import opened Ingest
  import opened Tables
  import opened Wire
  import DH = DeliveryHistory
  import RuleEdits
  import S = System

  /** Ingest, replays and worker passes change no device's status and no rule. */
  predicate SameAdmission(a: DB, b: DB) {
    && a.rules == b.rules && a.devices.Keys == b.devices.Keys
    && forall id :: id in a.devices ==> a.devices[id].status == b.devices[id].status
  }

  /** The rules name the same topics under the same ids; a delivery row holds no more of a rule. */
  predicate SameRoutes(rules: seq<RouteRule>, others: seq<RouteRule>) {
    IdsOf(rules) == IdsOf(others) && TopicsOf(rules) == TopicsOf(others)
  }

  lemma SameRoutesSameRows(eventId: string, rules: seq<RouteRule>, others: seq<RouteRule>, from: nat, now: int)
    ensures SameRoutes(rules, others) <==> NewRows(eventId, rules, from, now) == NewRows(eventId, others, from, now)
  {
    var rows, more := NewRows(eventId, rules, from, now), NewRows(eventId, others, from, now);
    if SameRoutes(rules, others) {
      assert |IdsOf(rules)| == |IdsOf(others)|;
      forall i | 0 <= i < |rules| ensures rows[i] == more[i] {
        assert IdsOf(rules)[i] == IdsOf(others)[i] && TopicsOf(rules)[i] == TopicsOf(others)[i];
      }
    }
    if rows == more {
      assert |rows| == |more|;
      forall i | 0 <= i < |rules| ensures IdsOf(rules)[i] == IdsOf(others)[i] && TopicsOf(rules)[i] == TopicsOf(others)[i] {
        assert rows[i] == more[i];
      }
    }
  }

  /** What a request has read still holds. */
  ghost predicate ReadsHold(lib: Lib, db: DB, line: Line, pc: Pc)
    requires IdsMatch(db.rules)
  {
    match pc
    case Begun => true
    case Answered(_, _) => true
    case Unanswered(_) => true
    case Stopped => true
    case Chosen(t, rules) =>
      && Admitted(lib, db, line.raw, line.now) == Success(t)
      && SameRoutes(rules, Matched(lib, db, NewEvent(lib, t, line.eventId, line.now)))
    case _ => Admitted(lib, db, line.raw, line.now) == Success(pc.tel)
  }

  lemma ReadsHoldElsewhere(lib: Lib, a: DB, b: DB, line: Line, pc: Pc)
    requires SameAdmission(a, b) && IdsMatch(a.rules) && ReadsHold(lib, a, line, pc)
    ensures ReadsHold(lib, b, line, pc)
  {
  }

  lemma NextReadsHold(lib: Lib, window: int, db: DB, line: Line, pc: Pc)
    requires IdsMatch(db.rules) && ReadsHold(lib, db, line, pc)
    ensures ReadsHold(lib, db, line, NextPc(lib, window, db, line, pc))
  {
    match pc {
      case Begun => BeginningReads(lib, window, db, line);
      case Parsed(_) => CheckReads(lib, window, db, line, pc);
      case Opened(_) => CheckReads(lib, window, db, line, pc);
      case Lost(_) => CheckReads(lib, window, db, line, pc);
      case Unseen(t) => ChoiceReads(lib, window, db, line, t);
      case _ => EndReads(lib, window, db, line, pc);
    }
  }

  lemma ChoiceReads(lib: Lib, window: int, db: DB, line: Line, t: Telemetry)
    requires IdsMatch(db.rules) && ReadsHold(lib, db, line, Unseen(t))
    ensures ReadsHold(lib, db, line, NextPc(lib, window, db, line, Unseen(t)))
  {
  }

  lemma EndReads(lib: Lib, window: int, db: DB, line: Line, pc: Pc)
    requires IdsMatch(db.rules) && ReadsHold(lib, db, line, pc) && (pc.Chosen? || pc.Known? || Ended(pc))
    ensures ReadsHold(lib, db, line, NextPc(lib, window, db, line, pc))
  {
  }

  lemma BeginningReads(lib: Lib, window: int, db: DB, line: Line)
    requires IdsMatch(db.rules)
    ensures ReadsHold(lib, db, line, NextPc(lib, window, db, line, Begun))
  {
  }

  lemma CheckReads(lib: Lib, window: int, db: DB, line: Line, pc: Pc)
    requires IdsMatch(db.rules) && ReadsHold(lib, db, line, pc) && (pc.Parsed? || pc.Opened? || pc.Lost?)
    ensures ReadsHold(lib, db, line, NextPc(lib, window, db, line, pc))
  {
  }

  // ---------------------------------------------------------------- one step

  /** A commit is what the request alone would do and answer at that moment, if what it read still holds. */
  lemma CommitIsIngest(lib: Lib, window: int, db: DB, line: Line, t: Telemetry, rules: seq<RouteRule>)
    requires IdsMatch(db.rules) && ReadsHold(lib, db, line, Chosen(t, rules)) && CommitRefused(lib, db, t, line).None?
    ensures IngestOf(lib, db, line.raw, line.now, line.eventId, window) ==
      (CommittedTo(lib, db, t, line.raw, line.now, line.eventId, rules), Success(Routed(line.eventId, rules)))
  {
    var now := Matched(lib, db, NewEvent(lib, t, line.eventId, line.now));
    SameRoutesSameRows(line.eventId, rules, now, |db.deliveries|, line.now);
    UnrefusedIngest(lib, window, db, line, t);
  }

  lemma UnrefusedIngest(lib: Lib, window: int, db: DB, line: Line, t: Telemetry)
    requires IdsMatch(db.rules) && CommitRefused(lib, db, t, line).None?
    requires Admitted(lib, db, line.raw, line.now) == Success(t)
    ensures
      var now := Matched(lib, db, NewEvent(lib, t, line.eventId, line.now));
      IngestOf(lib, db, line.raw, line.now, line.eventId, window) ==
      (CommittedTo(lib, db, t, line.raw, line.now, line.eventId, now), Success(Routed(line.eventId, now)))
  {
  }

  /** So is a duplicate answer. */
  lemma DuplicateIsIngest(lib: Lib, window: int, db: DB, line: Line, t: Telemetry, existing: RawMessage)
    requires IdsMatch(db.rules) && ReadsHold(lib, db, line, Known(t, existing))
    requires Key(lib, t) in db.raws && db.raws[Key(lib, t)] == existing && existing.status.RawParsed?
    ensures IngestOf(lib, db, line.raw, line.now, line.eventId, window) == (db, Success(DuplicateOf(lib, db, existing)))
  {
  }

  // ---------------------------------------------------------------- the small steps make up a request

  /** How far a request is after n steps with nobody else about. */
  ghost function Steps(lib: Lib, window: int, db: DB, line: Line, n: nat): Pc
    requires IdsMatch(db.rules)
  {
    if n == 0 then Begun else NextPc(lib, window, db, line, Steps(lib, window, db, line, n - 1))
  }

  lemma OneStepOn(lib: Lib, window: int, db: DB, line: Line, n: nat, pc: Pc, next: Pc)
    requires IdsMatch(db.rules) && Steps(lib, window, db, line, n) == pc && NextPc(lib, window, db, line, pc) == next
    ensures Steps(lib, window, db, line, n + 1) == next
  {
  }

  lemma EndStays(lib: Lib, window: int, db: DB, line: Line, n: nat, end: Pc)
    requires IdsMatch(db.rules) && n <= 5 && Steps(lib, window, db, line, n) == end && end.Answered?
    ensures Steps(lib, window, db, line, 5) == end
    decreases 5 - n
  {
    if n < 5 {
      OneStepOn(lib, window, db, line, n, end, end);
      EndStays(lib, window, db, line, n + 1, end);
    }
  }

  lemma RejectedStep(lib: Lib, window: int, db: DB, line: Line)
    requires IdsMatch(db.rules) && Admitted(lib, db, line.raw, line.now).Failure?
    ensures NextPc(lib, window, db, line, Begun) == Answered(None, Failure(Admitted(lib, db, line.raw, line.now).error))
  {
  }

  lemma CheckSteps(lib: Lib, window: int, db: DB, line: Line, t: Telemetry, m: RawMessage)
    requires IdsMatch(db.rules) && Seen(db, Key(lib, t)) && m == db.raws[Key(lib, t)]
    ensures NextPc(lib, window, db, line, Parsed(t)) ==
      if SeenRecently(db, Key(lib, t), line.now, window) then Known(t, m) else Opened(t)
    ensures NextPc(lib, window, db, line, Opened(t)) == Lost(t) && NextPc(lib, window, db, line, Lost(t)) == Known(t, m)
    ensures NextPc(lib, window, db, line, Known(t, m)) == Answered(Some(t), Success(DuplicateOf(lib, db, m)))
  {
  }

  lemma PassingSteps(lib: Lib, window: int, db: DB, line: Line, t: Telemetry)
    requires IdsMatch(db.rules) && !Seen(db, Key(lib, t))
    ensures NextPc(lib, window, db, line, Parsed(t)) == Opened(t) && NextPc(lib, window, db, line, Opened(t)) == Unseen(t)
    ensures NextPc(lib, window, db, line, Unseen(t)) == Chosen(t, RulesFor(lib, db, line, t))
  {
  }

  lemma RefusedIngest(lib: Lib, window: int, db: DB, line: Line, t: Telemetry)
    requires IdsMatch(db.rules) && Admitted(lib, db, line.raw, line.now) == Success(t) && !Seen(db, Key(lib, t))
    requires CommitRefused(lib, db, t, line).Some?
    ensures Alone(lib, window, db, line).1 == Failure(Database(CommitRefused(lib, db, t, line).value))
  {
  }

  lemma ChosenStep(lib: Lib, window: int, db: DB, line: Line, t: Telemetry, rules: seq<RouteRule>)
    requires IdsMatch(db.rules)
    ensures
      NextPc(lib, window, db, line, Chosen(t, rules)) == Answered(Some(t),
        if CommitRefused(lib, db, t, line).Some? then Failure(Database(CommitRefused(lib, db, t, line).value))
        else Success(Routed(line.eventId, rules)))
  {
  }

  lemma LastStep(lib: Lib, window: int, db: DB, line: Line, t: Telemetry, rules: seq<RouteRule>, end: Pc)
    requires IdsMatch(db.rules) && Admitted(lib, db, line.raw, line.now) == Success(t) && !Seen(db, Key(lib, t))
    requires rules == RulesFor(lib, db, line, t) && end == NextPc(lib, window, db, line, Chosen(t, rules))
    ensures end.Answered? && end.answer == Alone(lib, window, db, line).1
  {
    ChosenStep(lib, window, db, line, t, rules);
    if CommitRefused(lib, db, t, line).Some? {
      RefusedIngest(lib, window, db, line, t);
    } else {
      UnrefusedIngest(lib, window, db, line, t);
    }
  }

  lemma KnownAnswer(lib: Lib, window: int, db: DB, line: Line, t: Telemetry)
    requires IdsMatch(db.rules) && Admitted(lib, db, line.raw, line.now) == Success(t) && Seen(db, Key(lib, t))
    ensures Alone(lib, window, db, line).1 == Success(DuplicateOf(lib, db, db.raws[Key(lib, t)]))
  {
  }

  lemma DuplicateSteps(lib: Lib, window: int, db: DB, line: Line, t: Telemetry, m: RawMessage)
    requires IdsMatch(db.rules) && Admitted(lib, db, line.raw, line.now) == Success(t)
    requires Seen(db, Key(lib, t)) && m == db.raws[Key(lib, t)]
    ensures Steps(lib, window, db, line, 5) == Answered(Some(t), Success(DuplicateOf(lib, db, m)))
  {
    var end := Answered(Some(t), Success(DuplicateOf(lib, db, m)));
    FirstStep(lib, window, db, line, t);
    CheckSteps(lib, window, db, line, t, m);
    OneStepOn(lib, window, db, line, 0, Begun, Parsed(t));
    if SeenRecently(db, Key(lib, t), line.now, window) {
      OneStepOn(lib, window, db, line, 1, Parsed(t), Known(t, m));
      OneStepOn(lib, window, db, line, 2, Known(t, m), end);
      EndStays(lib, window, db, line, 3, end);
    } else {
      OneStepOn(lib, window, db, line, 1, Parsed(t), Opened(t));
      OneStepOn(lib, window, db, line, 2, Opened(t), Lost(t));
      OneStepOn(lib, window, db, line, 3, Lost(t), Known(t, m));
      OneStepOn(lib, window, db, line, 4, Known(t, m), end);
    }
  }

  lemma NewSteps(lib: Lib, window: int, db: DB, line: Line, t: Telemetry)
    requires IdsMatch(db.rules) && Admitted(lib, db, line.raw, line.now) == Success(t) && !Seen(db, Key(lib, t))
    ensures
      var end := Steps(lib, window, db, line, 5);
      end.Answered? && end.answer == Alone(lib, window, db, line).1
  {
    var rules := RulesFor(lib, db, line, t);
    var end := NextPc(lib, window, db, line, Chosen(t, rules));
    FirstStep(lib, window, db, line, t);
    PassingSteps(lib, window, db, line, t);
    OneStepOn(lib, window, db, line, 0, Begun, Parsed(t));
    OneStepOn(lib, window, db, line, 1, Parsed(t), Opened(t));
    OneStepOn(lib, window, db, line, 2, Opened(t), Unseen(t));
    OneStepOn(lib, window, db, line, 3, Unseen(t), Chosen(t, rules));
    OneStepOn(lib, window, db, line, 4, Chosen(t, rules), end);
    LastStep(lib, window, db, line, t, rules, end);
  }

  /** Five steps in a row are the request as a whole: its answer is the one the code gives. */
  lemma StepsAreIngest(lib: Lib, window: int, db: DB, line: Line)
    requires IdsMatch(db.rules)
    ensures
      var end := Steps(lib, window, db, line, 5);
      end.Answered? && end.answer == Alone(lib, window, db, line).1
  {
    match Admitted(lib, db, line.raw, line.now) {
      case Failure(error) =>
        RejectedStep(lib, window, db, line);
        OneStepOn(lib, window, db, line, 0, Begun, Answered(None, Failure(error)));
        EndStays(lib, window, db, line, 1, Answered(None, Failure(error)));
      case Success(t) =>
        if Seen(db, Key(lib, t)) {
          DuplicateSteps(lib, window, db, line, t, db.raws[Key(lib, t)]);
          KnownAnswer(lib, window, db, line, t);
        } else {
          NewSteps(lib, window, db, line, t);
        }
    }
  }

  // ---------------------------------------------------------------- the serial run

  ghost function Alone(lib: Lib, window: int, db: DB, line: Line): (DB, Response<TelemetryResult>)
    requires IdsMatch(db.rules)
  {
    IngestOf(lib, db, line.raw, line.now, line.eventId, window)
  }

  lemma CommitKeepsAdmission(lib: Lib, db: DB, t: Telemetry, line: Line, rules: seq<RouteRule>)
    ensures SameAdmission(db, CommittedTo(lib, db, t, line.raw, line.now, line.eventId, rules))
  {
  }

  lemma AloneKeepsAdmission(lib: Lib, window: int, db: DB, line: Line)
    requires IdsMatch(db.rules)
    ensures SameAdmission(db, Alone(lib, window, db, line).0)
  {
    var r := Alone(lib, window, db, line);
    IngestCommitsOrNot(lib, db, line.raw, line.now, line.eventId, window);
    if IsNew(r.1) {
      var t := Admitted(lib, db, line.raw, line.now).value;
      CommitKeepsAdmission(lib, db, t, line, Matched(lib, db, NewEvent(lib, t, line.eventId, line.now)));
    }
  }

  /** The request that took its turn, if any. */
  function Who(turn: Turn): Option<nat> {
    match turn
    case Told(i) => Some(i)
    case Blind(i) => Some(i)
    case Untold(i) => Some(i)
    case Between(_) => None
  }

  predicate TurnsInRange(turns: seq<Turn>, n: nat) {
    forall k :: 0 <= k < |turns| && Who(turns[k]).Some? ==> Who(turns[k]).value < n
  }

  /** A turn of the serial run: the request alone, from its first step to its last, or the operation in between. */
  ghost function TurnAlone(lib: Lib, window: int, db: DB, lines: seq<Line>, turn: Turn): DB
    requires IdsMatch(db.rules) && (Who(turn).Some? ==> Who(turn).value < |lines|)
  {
    if turn.Between? then turn.db else Alone(lib, window, db, lines[Who(turn).value]).0
  }

  predicate RulesMatch(turns: seq<Turn>) {
    forall k :: 0 <= k < |turns| && turns[k].Between? ==> IdsMatch(turns[k].db.rules)
  }

  /** The turns, one after another. */
  ghost function OneByOne(lib: Lib, window: int, db: DB, lines: seq<Line>, turns: seq<Turn>): (r: DB)
    requires IdsMatch(db.rules) && TurnsInRange(turns, |lines|) && RulesMatch(turns)
    ensures IdsMatch(r.rules)
  {
    if turns == [] then db
    else
      var n := |turns| - 1;
      var before := OneByOne(lib, window, db, lines, turns[..n]);
      if turns[n].Between? then turns[n].db
      else
        AloneKeepsAdmission(lib, window, before, lines[Who(turns[n]).value]);
        TurnAlone(lib, window, before, lines, turns[n])
  }

  /** The request answers as it does alone: in full, without its lists when they could not be read, or
      not at all when its commit went through unnoticed. */
  predicate AnswersAs(turn: Turn, pc: Pc, alone: Response<TelemetryResult>)
    requires !turn.Between?
  {
    match turn
    case Told(_) => pc.Answered? && pc.answer == alone && alone.Success?
    case Blind(_) =>
      && alone.Success? && alone.value.duplicate
      && pc.Answered? && pc.answer == Success(alone.value.(matchedRules := [], topics := []))
    case Untold(_) => pc.Unanswered? && IsNew(alone)
  }

  /** The n-th turn does in the serial run what it did among the others: a request answers as it does
      alone, and another operation finds the rows it found. */
  ghost predicate TurnFits(lib: Lib, window: int, start: DB, lines: seq<Line>, turns: seq<Turn>, n: nat, pcs: seq<Pc>)
    requires IdsMatch(start.rules) && TurnsInRange(turns, |lines|) && RulesMatch(turns) && n < |turns| && |pcs| == |lines|
  {
    var before := OneByOne(lib, window, start, lines, turns[..n]);
    if turns[n].Between? then OtherStep(before, turns[n].db)
    else AnswersAs(turns[n], pcs[Who(turns[n]).value], Alone(lib, window, before, lines[Who(turns[n]).value]).1)
  }

  ghost predicate AllTurnsFit(lib: Lib, window: int, start: DB, lines: seq<Line>, turns: seq<Turn>, pcs: seq<Pc>)
    requires IdsMatch(start.rules) && TurnsInRange(turns, |lines|) && RulesMatch(turns) && |pcs| == |lines|
  {
    forall n :: 0 <= n < |turns| ==> TurnFits(lib, window, start, lines, turns, n, pcs)
  }

  /** The request has taken effect. */
  predicate Effective(pc: Pc) {
    Succeeded(pc) || pc.Unanswered?
  }

  ghost predicate TookTurn(turns: seq<Turn>, i: nat) {
    exists n :: 0 <= n < |turns| && Who(turns[n]) == Some(i)
  }

  predicate NoTwoTurns(turns: seq<Turn>) {
    forall m, n :: 0 <= m < n < |turns| && Who(turns[m]).Some? ==> Who(turns[m]) != Who(turns[n])
  }

  /** Exactly the requests that took effect took a turn, each one. */
  ghost predicate TurnsCount(turns: seq<Turn>, pcs: seq<Pc>) {
    && TurnsInRange(turns, |pcs|) && NoTwoTurns(turns)
    && forall i :: 0 <= i < |pcs| ==> (TookTurn(turns, i) <==> Effective(pcs[i]))
  }

  ghost predicate IsSerial(lib: Lib, window: int, w: World) {
    && |w.lines| == |w.pcs| && IdsMatch(w.start.rules)
    && TurnsCount(w.turns, w.pcs) && RulesMatch(w.turns)
    && w.db == OneByOne(lib, window, w.start, w.lines, w.turns)
    && AllTurnsFit(lib, window, w.start, w.lines, w.turns, w.pcs)
  }

  // ---------------------------------------------------------------- one more turn

  predicate MayFollow(turn: Turn, n: nat) {
    if turn.Between? then IdsMatch(turn.db.rules) else Who(turn).value < n
  }

  lemma OneMoreTurn(turns: seq<Turn>, turn: Turn, n: nat)
    requires TurnsInRange(turns, n) && RulesMatch(turns) && MayFollow(turn, n)
    ensures TurnsInRange(turns + [turn], n) && RulesMatch(turns + [turn])
    ensures (turns + [turn])[..|turns|] == turns
  {
  }

  lemma TurnsCountOn(turns: seq<Turn>, pcs: seq<Pc>, turn: Turn, i: nat, pc: Pc)
    requires TurnsCount(turns, pcs) && Who(turn) == Some(i) && i < |pcs|
    requires !Effective(pcs[i]) && Effective(pc)
    ensures TurnsCount(turns + [turn], pcs[i := pc])
  {
    var more := turns + [turn];
    forall j | 0 <= j < |pcs| ensures TookTurn(more, j) <==> TookTurn(turns, j) || j == i {
      TookLater(turns, turn, j);
    }
    assert forall m :: 0 <= m < |turns| && Who(turns[m]) == Some(i) ==> TookTurn(turns, i);
  }

  lemma TookLater(turns: seq<Turn>, turn: Turn, j: nat)
    ensures TookTurn(turns + [turn], j) <==> TookTurn(turns, j) || Who(turn) == Some(j)
  {
    var more := turns + [turn];
    assert more[|turns|] == turn;
    if n :| 0 <= n < |turns| && Who(turns[n]) == Some(j) {
      assert Who(more[n]) == Some(j);
    }
  }

  lemma TurnsCountBetween(turns: seq<Turn>, pcs: seq<Pc>, turn: Turn)
    requires TurnsCount(turns, pcs) && turn.Between?
    ensures TurnsCount(turns + [turn], pcs)
  {
    forall j | 0 <= j < |pcs| ensures TookTurn(turns + [turn], j) <==> TookTurn(turns, j) {
      TookLater(turns, turn, j);
    }
  }

  /** A turn that was taken stays as it was when request i, which took none, goes on and a turn is added. */
  lemma EarlierTurn(lib: Lib, window: int, start: DB, lines: seq<Line>, turns: seq<Turn>, n: nat, pcs: seq<Pc>, others: seq<Pc>, turn: Turn)
    requires IdsMatch(start.rules) && TurnsInRange(turns, |lines|) && RulesMatch(turns) && n < |turns|
    requires |pcs| == |others| == |lines| && MayFollow(turn, |lines|)
    requires TurnFits(lib, window, start, lines, turns, n, pcs)
    requires Who(turns[n]).Some? ==> others[Who(turns[n]).value] == pcs[Who(turns[n]).value]
    ensures TurnsInRange(turns + [turn], |lines|) && RulesMatch(turns + [turn])
    ensures TurnFits(lib, window, start, lines, turns + [turn], n, others)
  {
    OneMoreTurn(turns, turn, |lines|);
    assert (turns + [turn])[..n] == turns[..n] && (turns + [turn])[n] == turns[n];
  }

  lemma SamePrefix(lib: Lib, window: int, start: DB, lines: seq<Line>, turns: seq<Turn>, n: nat, pcs: seq<Pc>, others: seq<Pc>)
    requires IdsMatch(start.rules) && TurnsInRange(turns, |lines|) && RulesMatch(turns) && n < |turns|
    requires |pcs| == |others| == |lines|
    requires TurnFits(lib, window, start, lines, turns, n, pcs)
    requires Who(turns[n]).Some? ==> others[Who(turns[n]).value] == pcs[Who(turns[n]).value]
    ensures TurnFits(lib, window, start, lines, turns, n, others)
  {
  }

  lemma LastTurn(lib: Lib, window: int, start: DB, lines: seq<Line>, turns: seq<Turn>, db: DB, pcs: seq<Pc>, turn: Turn)
    requires IdsMatch(start.rules) && TurnsInRange(turns, |lines|) && RulesMatch(turns)
    requires |pcs| == |lines| && MayFollow(turn, |lines|)
    requires db == OneByOne(lib, window, start, lines, turns)
    requires turn.Between? ==> OtherStep(db, turn.db)
    requires !turn.Between? ==> AnswersAs(turn, pcs[Who(turn).value], Alone(lib, window, db, lines[Who(turn).value]).1)
    ensures TurnsInRange(turns + [turn], |lines|) && RulesMatch(turns + [turn])
    ensures TurnFits(lib, window, start, lines, turns + [turn], |turns|, pcs)
  {
    OneMoreTurn(turns, turn, |lines|);
    assert (turns + [turn])[|turns|] == turn;
  }

  /** No turn is one of request i. */
  predicate Others(turns: seq<Turn>, i: nat) {
    forall n :: 0 <= n < |turns| ==> Who(turns[n]) != Some(i)
  }

  lemma WithoutTurn(turns: seq<Turn>, pcs: seq<Pc>, i: nat)
    requires TurnsCount(turns, pcs) && i < |pcs| && !Effective(pcs[i])
    ensures Others(turns, i)
  {
    forall n | 0 <= n < |turns| ensures Who(turns[n]) != Some(i) {
      assert Who(turns[n]) == Some(i) ==> TookTurn(turns, i);
    }
  }

  /** A step of a request that has taken no turn leaves the earlier turns alone. */
  lemma OthersFit(lib: Lib, window: int, start: DB, lines: seq<Line>, turns: seq<Turn>, pcs: seq<Pc>, i: nat, pc: Pc)
    requires IdsMatch(start.rules) && TurnsInRange(turns, |lines|) && RulesMatch(turns) && |pcs| == |lines|
    requires AllTurnsFit(lib, window, start, lines, turns, pcs) && i < |pcs| && Others(turns, i)
    ensures AllTurnsFit(lib, window, start, lines, turns, pcs[i := pc])
  {
    var others := pcs[i := pc];
    forall n | 0 <= n < |turns| ensures TurnFits(lib, window, start, lines, turns, n, others) {
      assert TurnFits(lib, window, start, lines, turns, n, pcs);
      SamePrefix(lib, window, start, lines, turns, n, pcs, others);
    }
  }

  lemma OneMoreFits(lib: Lib, window: int, start: DB, lines: seq<Line>, turns: seq<Turn>, pcs: seq<Pc>, turn: Turn)
    requires IdsMatch(start.rules) && TurnsInRange(turns, |lines|) && RulesMatch(turns) && |pcs| == |lines|
    requires AllTurnsFit(lib, window, start, lines, turns, pcs) && MayFollow(turn, |lines|)
    requires TurnsInRange(turns + [turn], |lines|) && RulesMatch(turns + [turn])
    requires TurnFits(lib, window, start, lines, turns + [turn], |turns|, pcs)
    ensures AllTurnsFit(lib, window, start, lines, turns + [turn], pcs)
  {
    var more := turns + [turn];
    forall n | 0 <= n < |turns| ensures TurnFits(lib, window, start, lines, more, n, pcs) {
      assert TurnFits(lib, window, start, lines, turns, n, pcs);
      EarlierTurn(lib, window, start, lines, turns, n, pcs, pcs, turn);
    }
  }

  /** A step that changes nothing but how far a request without effect has come. */
  lemma PcKeepsSerial(lib: Lib, window: int, w: World, i: nat, pc: Pc)
    requires IsSerial(lib, window, w) && i < |w.pcs| && !Effective(w.pcs[i])
    requires !Effective(pc)
    ensures IsSerial(lib, window, At(w, i, pc, []))
  {
    assert w.turns + [] == w.turns;
    WithoutTurn(w.turns, w.pcs, i);
    OthersFit(lib, window, w.start, w.lines, w.turns, w.pcs, i, pc);
  }

  /** A request that takes effect takes its turn at this moment. */
  lemma TurnKeepsSerial(lib: Lib, window: int, w: World, i: nat, turn: Turn, pc: Pc, r: World)
    requires IsSerial(lib, window, w) && i < |w.pcs| && !Effective(w.pcs[i]) && Effective(pc) && Who(turn) == Some(i)
    requires r.start == w.start && r.lines == w.lines && r.turns == w.turns + [turn] && r.pcs == w.pcs[i := pc]
    requires r.db == Alone(lib, window, w.db, w.lines[i]).0
    requires AnswersAs(turn, pc, Alone(lib, window, w.db, w.lines[i]).1)
    ensures IsSerial(lib, window, r)
  {
    WithoutTurn(w.turns, w.pcs, i);
    OneMoreTurn(w.turns, turn, |w.lines|);
    TurnsCountOn(w.turns, w.pcs, turn, i, pc);
    OthersFit(lib, window, w.start, w.lines, w.turns, w.pcs, i, pc);
    LastTurn(lib, window, w.start, w.lines, w.turns, w.db, r.pcs, turn);
    OneMoreFits(lib, window, w.start, w.lines, w.turns, r.pcs, turn);
    NextTurn(lib, window, w.start, w.lines, w.turns, turn, w.db, r.db);
  }

  lemma NextTurn(lib: Lib, window: int, start: DB, lines: seq<Line>, turns: seq<Turn>, turn: Turn, db: DB, r: DB)
    requires IdsMatch(start.rules) && TurnsInRange(turns, |lines|) && RulesMatch(turns) && MayFollow(turn, |lines|)
    requires db == OneByOne(lib, window, start, lines, turns) && r == TurnAlone(lib, window, db, lines, turn)
    ensures TurnsInRange(turns + [turn], |lines|) && RulesMatch(turns + [turn])
    ensures r == OneByOne(lib, window, start, lines, turns + [turn])
  {
    OneMoreTurn(turns, turn, |lines|);
  }

  /** So does an operation in between. */
  lemma BetweenKeepsSerial(lib: Lib, window: int, w: World, db: DB)
    requires IsSerial(lib, window, w) && OtherStep(w.db, db)
    ensures IsSerial(lib, window, w.(db := db, turns := w.turns + [Between(db)]))
  {
    var turn := Between(db);
    OneMoreTurn(w.turns, turn, |w.lines|);
    TurnsCountBetween(w.turns, w.pcs, turn);
    LastTurn(lib, window, w.start, w.lines, w.turns, w.db, w.pcs, turn);
    OneMoreFits(lib, window, w.start, w.lines, w.turns, w.pcs, turn);
    NextTurn(lib, window, w.start, w.lines, w.turns, turn, w.db, db);
  }

  lemma GoKeepsSerial(lib: Lib, window: int, w: World, i: nat)
    requires Safe(lib, w) && IsSerial(lib, window, w) && i < |w.pcs|
    requires Commits(lib, w, i) || w.pcs[i].Known? ==> ReadsHold(lib, w.db, w.lines[i], w.pcs[i])
    ensures IsSerial(lib, window, Advance(lib, window, w, i))
  {
    if Commits(lib, w, i) {
      CommitKeepsSerial(lib, window, w, i, true);
    } else if w.pcs[i].Known? {
      KnownKeepsSerial(lib, window, w, i);
    } else if Ended(w.pcs[i]) {
      DoneStays(lib, window, w, i);
    } else {
      OnTheWayKeepsSerial(lib, window, w, i);
    }
  }

  lemma OnTheWayKeepsSerial(lib: Lib, window: int, w: World, i: nat)
    requires IsSerial(lib, window, w) && i < |w.pcs|
    requires !Commits(lib, w, i) && !w.pcs[i].Known? && !Ended(w.pcs[i])
    ensures IsSerial(lib, window, Advance(lib, window, w, i))
  {
    var line, pc := w.lines[i], w.pcs[i];
    NextFails(lib, window, w.db, line, pc);
    PcKeepsSerial(lib, window, w, i, NextPc(lib, window, w.db, line, pc));
  }

  lemma CommitAnswers(i: nat, t: Telemetry, line: Line, rules: seq<RouteRule>, told: bool)
    ensures
      var pc := AfterCommit(t, line, rules, told);
      Effective(pc) && AnswersAs(if told then Told(i) else Untold(i), pc, Success(Routed(line.eventId, rules)))
  {
  }

  lemma CommitKeepsSerial(lib: Lib, window: int, w: World, i: nat, told: bool)
    requires IsSerial(lib, window, w) && i < |w.pcs| && Commits(lib, w, i) && ReadsHold(lib, w.db, w.lines[i], w.pcs[i])
    ensures IsSerial(lib, window, Committing(lib, w, i, w.pcs[i].tel, w.pcs[i].rules, told))
  {
    var line, t, rules := w.lines[i], w.pcs[i].tel, w.pcs[i].rules;
    CommitIsIngest(lib, window, w.db, line, t, rules);
    CommitAnswers(i, t, line, rules, told);
    CommitTurn(lib, window, w, i, t, rules, told);
  }

  lemma CommitTurn(lib: Lib, window: int, w: World, i: nat, t: Telemetry, rules: seq<RouteRule>, told: bool)
    requires IsSerial(lib, window, w) && i < |w.pcs| && w.pcs[i] == Chosen(t, rules)
    requires
      var (pc, line) := (AfterCommit(t, w.lines[i], rules, told), w.lines[i]);
      && Effective(pc) && AnswersAs(if told then Told(i) else Untold(i), pc, Success(Routed(line.eventId, rules)))
      && Alone(lib, window, w.db, line) ==
           (CommittedTo(lib, w.db, t, line.raw, line.now, line.eventId, rules), Success(Routed(line.eventId, rules)))
    ensures IsSerial(lib, window, Committing(lib, w, i, t, rules, told))
  {
    var turn := if told then Told(i) else Untold(i);
    var r := Committing(lib, w, i, t, rules, told);
    TurnKeepsSerial(lib, window, w, i, turn, AfterCommit(t, w.lines[i], rules, told), r);
  }

  lemma KnownKeepsSerial(lib: Lib, window: int, w: World, i: nat)
    requires Safe(lib, w) && IsSerial(lib, window, w) && i < |w.pcs| && w.pcs[i].Known? && ReadsHold(lib, w.db, w.lines[i], w.pcs[i])
    ensures IsSerial(lib, window, Advance(lib, window, w, i))
  {
    var pc := w.pcs[i];
    KnownAlone(lib, window, w, i);
    UnlistedIsShorter(lib, w.db, pc.existing);
    KnownTurn(lib, window, w, i, Told(i), DuplicateOf(lib, w.db, pc.existing));
    KnownAdvances(lib, window, w, i);
  }

  lemma KnownAdvances(lib: Lib, window: int, w: World, i: nat)
    requires i < |w.lines| == |w.pcs| && IdsMatch(w.db.rules) && w.pcs[i].Known?
    ensures
      var answer := Answered(Some(w.pcs[i].tel), Success(DuplicateOf(lib, w.db, w.pcs[i].existing)));
      Advance(lib, window, w, i) == At(w, i, answer, [Told(i)])
  {
  }

  /** A duplicate takes its turn, with its lists or without. */
  lemma KnownTurn(lib: Lib, window: int, w: World, i: nat, turn: Turn, result: TelemetryResult)
    requires IsSerial(lib, window, w) && i < |w.pcs| && w.pcs[i].Known? && Alone(lib, window, w.db, w.lines[i]).0 == w.db
    requires turn == Told(i) || turn == Blind(i)
    requires AnswersAs(turn, Answered(Some(w.pcs[i].tel), Success(result)), Alone(lib, window, w.db, w.lines[i]).1)
    ensures IsSerial(lib, window, At(w, i, Answered(Some(w.pcs[i].tel), Success(result)), [turn]))
  {
    var pc := Answered(Some(w.pcs[i].tel), Success(result));
    TurnKeepsSerial(lib, window, w, i, turn, pc, At(w, i, pc, [turn]));
  }

  lemma MissKeepsSerial(lib: Lib, window: int, w: World, i: nat)
    requires Safe(lib, w) && IsSerial(lib, window, w) && i < |w.pcs| && w.pcs[i].Known? && ReadsHold(lib, w.db, w.lines[i], w.pcs[i])
    ensures IsSerial(lib, window, At(w, i, Answered(Some(w.pcs[i].tel), Success(Unlisted(w.pcs[i].existing))), [Blind(i)]))
  {
    var pc := w.pcs[i];
    KnownAlone(lib, window, w, i);
    UnlistedIsShorter(lib, w.db, pc.existing);
    KnownTurn(lib, window, w, i, Blind(i), Unlisted(pc.existing));
  }

  lemma UnlistedIsShorter(lib: Lib, db: DB, m: RawMessage)
    requires IdsMatch(db.rules)
    ensures DuplicateOf(lib, db, m).duplicate
    ensures Unlisted(m) == DuplicateOf(lib, db, m).(matchedRules := [], topics := [])
  {
  }

  lemma KnownAlone(lib: Lib, window: int, w: World, i: nat)
    requires Safe(lib, w) && IsSerial(lib, window, w) && i < |w.pcs| && w.pcs[i].Known? && ReadsHold(lib, w.db, w.lines[i], w.pcs[i])
    ensures Alone(lib, window, w.db, w.lines[i]) == (w.db, Success(DuplicateOf(lib, w.db, w.pcs[i].existing)))
  {
    KnownIsStored(lib, w, i);
    DuplicateIsIngest(lib, window, w.db, w.lines[i], w.pcs[i].tel, w.pcs[i].existing);
  }

  lemma NextFails(lib: Lib, window: int, db: DB, line: Line, pc: Pc)
    requires IdsMatch(db.rules) && !pc.Known? && !Ended(pc)
    requires pc.Chosen? ==> CommitRefused(lib, db, pc.tel, line).Some?
    ensures !Effective(pc) && !Effective(NextPc(lib, window, db, line, pc))
  {
  }

  lemma KnownIsStored(lib: Lib, w: World, i: nat)
    requires Safe(lib, w) && i < |w.pcs| && w.pcs[i].Known?
    ensures
      var key := Key(lib, w.pcs[i].tel);
      key in w.db.raws && w.db.raws[key] == w.pcs[i].existing && w.pcs[i].existing.status.RawParsed?
  {
    assert RequestOk(lib, w.db, w.lines[i], w.pcs[i], Won(w.commits, i));
    var key := Key(lib, w.pcs[i].tel);
    assert RawOfEvent(w.db, key, w.db.raws[key].eventId.value);
  }

  /** The request that takes effect by this step, if any. */
  function TakesEffect(lib: Lib, w: World, act: Act): Option<nat>
    requires |w.lines| == |w.pcs|
  {
    match act
    case Go(i) => if i < |w.pcs| && (Commits(lib, w, i) || w.pcs[i].Known?) then Some(i) else None
    case Miss(i) => Some(i)
    case Lose(i) => Some(i)
    case _ => None
  }

  /** If a request takes effect by this step, what it has read still holds. */
  ghost predicate StillTrue(lib: Lib, w: World, act: Act)
    requires |w.lines| == |w.pcs| && IdsMatch(w.db.rules)
  {
    var who := TakesEffect(lib, w, act);
    who.Some? && who.value < |w.pcs| ==> ReadsHold(lib, w.db, w.lines[who.value], w.pcs[who.value])
  }

  lemma NextKeepsSerial(lib: Lib, window: int, w: World, act: Act)
    requires Safe(lib, w) && IsSerial(lib, window, w) && CanAct(lib, w, act) && StillTrue(lib, w, act)
    ensures IsSerial(lib, window, Next(lib, window, w, act))
  {
    match act {
      case Go(i) => GoKeepsSerial(lib, window, w, i);
      case Stop(i) => PcKeepsSerial(lib, window, w, i, Stopped);
      case Miss(i) => MissKeepsSerial(lib, window, w, i);
      case Lose(i) => CommitKeepsSerial(lib, window, w, i, false);
      case Other(db) => BetweenKeepsSerial(lib, window, w, db);
    }
  }

  /** A request that did as it would alone had read what still holds. */
  lemma CommitWasTrue(lib: Lib, window: int, db: DB, line: Line, t: Telemetry, rules: seq<RouteRule>)
    requires IdsMatch(db.rules) && LineOk(lib, line, Chosen(t, rules)) && IsNew(Alone(lib, window, db, line).1)
    requires Alone(lib, window, db, line).0 == CommittedTo(lib, db, t, line.raw, line.now, line.eventId, rules)
    ensures ReadsHold(lib, db, line, Chosen(t, rules))
  {
    IngestCommitsOrNot(lib, db, line.raw, line.now, line.eventId, window);
    AdmittedIsParsed(lib, db, line.raw, line.now);
    ChosenIsParsed(lib, line, t, rules);
    SameRowsSameRoutes(lib, db, t, line, rules, Matched(lib, db, NewEvent(lib, t, line.eventId, line.now)));
  }

  lemma SameRowsSameRoutes(lib: Lib, db: DB, t: Telemetry, line: Line, rules: seq<RouteRule>, others: seq<RouteRule>)
    requires CommittedTo(lib, db, t, line.raw, line.now, line.eventId, rules) ==
      CommittedTo(lib, db, t, line.raw, line.now, line.eventId, others)
    ensures SameRoutes(rules, others)
  {
    var n := |db.deliveries|;
    var rows, more := NewRows(line.eventId, rules, n, line.now), NewRows(line.eventId, others, n, line.now);
    assert (db.deliveries + rows)[n..] == rows && (db.deliveries + more)[n..] == more;
    SameRoutesSameRows(line.eventId, rules, others, n, line.now);
  }

  lemma KnownWasTrue(lib: Lib, window: int, db: DB, line: Line, t: Telemetry, existing: RawMessage)
    requires IdsMatch(db.rules) && LineOk(lib, line, Known(t, existing)) && Alone(lib, window, db, line).1.Success?
    ensures ReadsHold(lib, db, line, Known(t, existing))
  {
    assert TelemetryOf(Known(t, existing)) == Some(t);
    AdmittedIsParsed(lib, db, line.raw, line.now);
  }

  /** What the last turn of a serial run says of its request. */
  lemma LastTurnSays(lib: Lib, window: int, w: World, i: nat, turn: Turn, r: World)
    requires IsSerial(lib, window, w) && IsSerial(lib, window, r) && i < |w.pcs| && Who(turn) == Some(i)
    requires r.start == w.start && r.lines == w.lines && r.turns == w.turns + [turn]
    ensures r.db == Alone(lib, window, w.db, w.lines[i]).0
    ensures AnswersAs(turn, r.pcs[i], Alone(lib, window, w.db, w.lines[i]).1)
  {
    var n := |w.turns|;
    assert r.turns[..n] == w.turns && r.turns[n] == turn;
    assert TurnFits(lib, window, r.start, r.lines, r.turns, n, r.pcs);
  }

  lemma CommitNeedsTruth(lib: Lib, window: int, w: World, i: nat, told: bool)
    requires Safe(lib, w) && IsSerial(lib, window, w) && i < |w.pcs| && Commits(lib, w, i)
    requires IsSerial(lib, window, Committing(lib, w, i, w.pcs[i].tel, w.pcs[i].rules, told))
    ensures ReadsHold(lib, w.db, w.lines[i], w.pcs[i])
  {
    var t, rules := w.pcs[i].tel, w.pcs[i].rules;
    var r, turn := Committing(lib, w, i, t, rules, told), if told then Told(i) else Untold(i);
    assert LineOk(lib, w.lines[i], w.pcs[i]);
    LastTurnSays(lib, window, w, i, turn, r);
    CommitWasTrue(lib, window, w.db, w.lines[i], t, rules);
  }

  lemma KnownNeedsTruth(lib: Lib, window: int, w: World, i: nat, turn: Turn, pc: Pc)
    requires Safe(lib, w) && IsSerial(lib, window, w) && i < |w.pcs| && w.pcs[i].Known?
    requires turn == Told(i) || turn == Blind(i)
    requires IsSerial(lib, window, At(w, i, pc, [turn]))
    ensures ReadsHold(lib, w.db, w.lines[i], w.pcs[i])
  {
    assert LineOk(lib, w.lines[i], w.pcs[i]);
    LastTurnSays(lib, window, w, i, turn, At(w, i, pc, [turn]));
    KnownWasTrue(lib, window, w.db, w.lines[i], w.pcs[i].tel, w.pcs[i].existing);
  }

  /** The condition is exact: a step goes on with a serial run if and only if, where a request takes effect
      by it, what the request has read still holds. */
  lemma NextIsSerialExactly(lib: Lib, window: int, w: World, act: Act)
    requires Safe(lib, w) && IsSerial(lib, window, w) && CanAct(lib, w, act)
    ensures IsSerial(lib, window, Next(lib, window, w, act)) <==> StillTrue(lib, w, act)
  {
    if StillTrue(lib, w, act) {
      NextKeepsSerial(lib, window, w, act);
    }
    if IsSerial(lib, window, Next(lib, window, w, act)) && TakesEffect(lib, w, act).Some? {
      match act {
        case Go(i) =>
          if Commits(lib, w, i) {
            CommitNeedsTruth(lib, window, w, i, true);
          } else {
            KnownAdvances(lib, window, w, i);
            KnownNeedsTruth(lib, window, w, i, Told(i), Advance(lib, window, w, i).pcs[i]);
          }
        case Miss(i) => KnownNeedsTruth(lib, window, w, i, Blind(i), Next(lib, window, w, act).pcs[i]);
        case Lose(i) => CommitNeedsTruth(lib, window, w, i, false);
      }
    }
  }

  /** The device of the request is suspended. */
  function Suspended(db: DB, id: string): DB
    requires id in db.devices
  {
    db.(devices := db.devices[id := db.devices[id].(status := DeviceSuspended)])
  }

  lemma SuspensionIsUnread(lib: Lib, db: DB, line: Line, t: Telemetry, rules: seq<RouteRule>)
    requires IdsMatch(db.rules) && t.deviceId in db.devices
    ensures !ReadsHold(lib, Suspended(db, t.deviceId), line, Chosen(t, rules))
  {
  }

  lemma SuspensionAllowsCommit(lib: Lib, db: DB, t: Telemetry, line: Line)
    requires CommitRefused(lib, db, t, line).None?
    ensures t.deviceId in db.devices && CommitRefused(lib, Suspended(db, t.deviceId), t, line).None?
  {
  }

  /** The condition can fail: a device suspended just before a commit does not stop it, and alone at its turn
      the request would be turned away. */
  lemma SuspensionComesTooLate(lib: Lib, window: int, w: World, i: nat) returns (r: World)
    requires Safe(lib, w) && IsSerial(lib, window, w) && i < |w.pcs| && Commits(lib, w, i)
    ensures
      var db := r.db;
      && OtherStep(w.db, db) && r == Next(lib, window, w, Other(db))
      && CanAct(lib, r, Go(i)) && Commits(lib, r, i) && !IsSerial(lib, window, Next(lib, window, r, Go(i)))
  {
    var t, rules := w.pcs[i].tel, w.pcs[i].rules;
    SuspensionAllowsCommit(lib, w.db, t, w.lines[i]);
    var db := Suspended(w.db, t.deviceId);
    DevicesMayComeBetween(w.db, db.devices);
    assert w.db.(devices := db.devices) == db;
    r := Next(lib, window, w, Other(db));
    OtherKeepsSafe(lib, w, db);
    BetweenKeepsSerial(lib, window, w, db);
    SuspensionIsUnread(lib, w.db, w.lines[i], t, rules);
    NextIsSerialExactly(lib, window, r, Go(i));
  }

  /** An interleaving in which what a request has read still holds when it takes effect. */
  ghost predicate TrueRun(lib: Lib, window: int, first: World, acts: seq<Act>, w: World) {
    if acts == [] then w == first
    else
      var n := |acts| - 1;
      exists before ::
        && TrueRun(lib, window, first, acts[..n], before)
        && |before.lines| == |before.pcs| && IdsMatch(before.db.rules) && CanAct(lib, before, acts[n])
        && StillTrue(lib, before, acts[n])
        && w == Next(lib, window, before, acts[n])
  }

  lemma {:induction false} TrueRunIsReached(lib: Lib, window: int, first: World, acts: seq<Act>, w: World)
    requires TrueRun(lib, window, first, acts, w)
    ensures Reached(lib, window, first, acts, w) && w.start == first.start
    decreases |acts|
  {
    if acts != [] {
      var n := |acts| - 1;
      var before :|
        && TrueRun(lib, window, first, acts[..n], before)
        && |before.lines| == |before.pcs| && IdsMatch(before.db.rules) && CanAct(lib, before, acts[n])
        && StillTrue(lib, before, acts[n])
        && w == Next(lib, window, before, acts[n]);
      TrueRunIsReached(lib, window, first, acts[..n], before);
    }
  }

  /** Whatever the interleaving, the rows and the answers are those of running the requests that take effect
      one after another, each alone, in the order in which they came to their last steps, with the other
      operations at their places in between. */
  lemma {:induction false} InterleavingIsSerial(lib: Lib, window: int, db: DB, lines: seq<Line>, acts: seq<Act>, w: World)
    requires IdsMatch(db.rules) && Paired(db) && Faithful(lib, db) && DH.RowsHaveEvents(db)
    requires TrueRun(lib, window, Initial(db, lines), acts, w)
    ensures IsSerial(lib, window, w) && w.start == db
    decreases |acts|
  {
    TrueRunIsReached(lib, window, Initial(db, lines), acts, w);
    if acts == [] {
      SerialAtFirst(lib, window, db, lines);
    } else {
      var n := |acts| - 1;
      var before :|
        && TrueRun(lib, window, Initial(db, lines), acts[..n], before)
        && |before.lines| == |before.pcs| && IdsMatch(before.db.rules) && CanAct(lib, before, acts[n])
        && StillTrue(lib, before, acts[n])
        && w == Next(lib, window, before, acts[n]);
      TrueRunIsReached(lib, window, Initial(db, lines), acts[..n], before);
      ReachedIsSafe(lib, window, db, lines, acts[..n], before);
      InterleavingIsSerial(lib, window, db, lines, acts[..n], before);
      NextKeepsSerial(lib, window, before, acts[n]);
    }
  }

  lemma SerialAtFirst(lib: Lib, window: int, db: DB, lines: seq<Line>)
    requires IdsMatch(db.rules)
    ensures IsSerial(lib, window, Initial(db, lines))
  {
  }

  // ---------------------------------------------------------------- when what was read holds

  ghost predicate AllReadsHold(lib: Lib, db: DB, lines: seq<Line>, pcs: seq<Pc>)
    requires IdsMatch(db.rules) && |pcs| == |lines|
  {
    forall i {:trigger ReadsHold(lib, db, lines[i], pcs[i])} :: 0 <= i < |pcs| ==> ReadsHold(lib, db, lines[i], pcs[i])
  }

  lemma ReadsKeepHolding(lib: Lib, a: DB, b: DB, lines: seq<Line>, pcs: seq<Pc>)
    requires SameAdmission(a, b) && IdsMatch(a.rules) && |pcs| == |lines| && AllReadsHold(lib, a, lines, pcs)
    ensures AllReadsHold(lib, b, lines, pcs)
  {
    forall j | 0 <= j < |pcs| ensures ReadsHold(lib, b, lines[j], pcs[j]) {
      ReadsHoldElsewhere(lib, a, b, lines[j], pcs[j]);
    }
  }

  lemma OneReadChanges(lib: Lib, db: DB, lines: seq<Line>, pcs: seq<Pc>, i: nat, pc: Pc)
    requires IdsMatch(db.rules) && |pcs| == |lines| && i < |pcs| && ReadsHold(lib, db, lines[i], pc)
    requires AllReadsHold(lib, db, lines, pcs)
    ensures AllReadsHold(lib, db, lines, pcs[i := pc])
  {
  }

  /** An interleaving in which every other operation leaves true what the requests under way have read. */
  ghost predicate CalmRun(lib: Lib, window: int, first: World, acts: seq<Act>, w: World) {
    if acts == [] then w == first
    else
      var n := |acts| - 1;
      exists before ::
        && CalmRun(lib, window, first, acts[..n], before)
        && |before.lines| == |before.pcs| && IdsMatch(before.db.rules) && CanAct(lib, before, acts[n])
        && Calm(lib, before, acts[n])
        && w == Next(lib, window, before, acts[n])
  }

  ghost predicate Calm(lib: Lib, w: World, act: Act)
    requires |w.lines| == |w.pcs|
  {
    act.Other? && IdsMatch(act.db.rules) ==> AllReadsHold(lib, act.db, w.lines, w.pcs)
  }

  lemma NextIsCalm(lib: Lib, window: int, w: World, act: Act)
    requires |w.lines| == |w.pcs| && IdsMatch(w.db.rules) && CanAct(lib, w, act) && Calm(lib, w, act)
    requires AllReadsHold(lib, w.db, w.lines, w.pcs)
    ensures StillTrue(lib, w, act)
    ensures
      var r := Next(lib, window, w, act);
      |r.lines| == |r.pcs| && IdsMatch(r.db.rules) && AllReadsHold(lib, r.db, r.lines, r.pcs)
  {
    var r := Next(lib, window, w, act);
    match act {
      case Other(_) =>
      case Go(i) =>
        assert ReadsHold(lib, w.db, w.lines[i], w.pcs[i]);
        NextReadsHold(lib, window, w.db, w.lines[i], w.pcs[i]);
        OneReadChanges(lib, w.db, w.lines, w.pcs, i, r.pcs[i]);
        AdvanceKeepsAdmission(lib, window, w, i);
        ReadsKeepHolding(lib, w.db, r.db, w.lines, r.pcs);
      case Stop(i) => OneReadChanges(lib, w.db, w.lines, w.pcs, i, r.pcs[i]);
      case Miss(i) =>
        assert ReadsHold(lib, w.db, w.lines[i], w.pcs[i]);
        OneReadChanges(lib, w.db, w.lines, w.pcs, i, r.pcs[i]);
      case Lose(i) =>
        assert ReadsHold(lib, w.db, w.lines[i], w.pcs[i]);
        OneReadChanges(lib, w.db, w.lines, w.pcs, i, r.pcs[i]);
        CommitKeepsAdmission(lib, w.db, w.pcs[i].tel, w.lines[i], w.pcs[i].rules);
        ReadsKeepHolding(lib, w.db, r.db, w.lines, r.pcs);
    }
  }

  lemma AdvanceKeepsAdmission(lib: Lib, window: int, w: World, i: nat)
    requires i < |w.lines| == |w.pcs| && IdsMatch(w.db.rules)
    ensures SameAdmission(w.db, Advance(lib, window, w, i).db)
  {
    if Commits(lib, w, i) {
      CommitKeepsAdmission(lib, w.db, w.pcs[i].tel, w.lines[i], w.pcs[i].rules);
    }
  }

  /** Such an interleaving is a serial run. */
  lemma {:induction false} CalmRunIsTrue(lib: Lib, window: int, db: DB, lines: seq<Line>, acts: seq<Act>, w: World)
    requires IdsMatch(db.rules) && CalmRun(lib, window, Initial(db, lines), acts, w)
    ensures TrueRun(lib, window, Initial(db, lines), acts, w)
    ensures |w.lines| == |w.pcs| && IdsMatch(w.db.rules) && AllReadsHold(lib, w.db, w.lines, w.pcs)
    decreases |acts|
  {
    if acts != [] {
      var n := |acts| - 1;
      var before :|
        && CalmRun(lib, window, Initial(db, lines), acts[..n], before)
        && |before.lines| == |before.pcs| && IdsMatch(before.db.rules) && CanAct(lib, before, acts[n])
        && Calm(lib, before, acts[n])
        && w == Next(lib, window, before, acts[n]);
      CalmRunIsTrue(lib, window, db, lines, acts[..n], before);
      NextIsCalm(lib, window, before, acts[n]);
    }
  }

  /** Any operation may fall where no request is under way, and one that leaves rules and the status of
      devices alone may fall anywhere. */
  lemma CalmOperation(lib: Lib, w: World, db: DB)
    requires |w.lines| == |w.pcs| && IdsMatch(w.db.rules) && IdsMatch(db.rules) && AllReadsHold(lib, w.db, w.lines, w.pcs)
    requires (forall pc :: pc in w.pcs ==> pc.Begun? || Ended(pc)) || SameAdmission(w.db, db)
    ensures Calm(lib, w, Other(db))
  {
    if SameAdmission(w.db, db) {
      ReadsKeepHolding(lib, w.db, db, w.lines, w.pcs);
    } else {
      NothingWasRead(lib, db, w.lines, w.pcs);
    }
  }

  lemma NothingWasRead(lib: Lib, db: DB, lines: seq<Line>, pcs: seq<Pc>)
    requires IdsMatch(db.rules) && |pcs| == |lines| && forall pc :: pc in pcs ==> pc.Begun? || Ended(pc)
    ensures AllReadsHold(lib, db, lines, pcs)
  {
    forall i | 0 <= i < |pcs| ensures ReadsHold(lib, db, lines[i], pcs[i]) {
      assert pcs[i] in pcs;
    }
  }

  // ---------------------------------------------------------------- a race

  lemma OneMoreAct(lib: Lib, window: int, first: World, acts: seq<Act>, w: World, act: Act)
    requires Reached(lib, window, first, acts, w)
    requires |w.lines| == |w.pcs| && IdsMatch(w.db.rules) && CanAct(lib, w, act)
    ensures Reached(lib, window, first, acts + [act], Next(lib, window, w, act))
  {
    assert (acts + [act])[..|acts|] == acts;
  }

  lemma GoesTo(lib: Lib, window: int, first: World, acts: seq<Act>, w: World, i: nat, pc: Pc)
    requires Reached(lib, window, first, acts, w) && i < |w.lines| == |w.pcs| && IdsMatch(w.db.rules)
    requires !w.pcs[i].Known? && !w.pcs[i].Chosen? && NextPc(lib, window, w.db, w.lines[i], w.pcs[i]) == pc
    ensures Reached(lib, window, first, acts + [Go(i)], At(w, i, pc, []))
  {
    OneMoreAct(lib, window, first, acts, w, Go(i));
    assert w.turns + [] == w.turns;
  }

  /** The rules a request would be routed to. */
  ghost function RulesFor(lib: Lib, db: DB, line: Line, t: Telemetry): seq<RouteRule>
    requires IdsMatch(db.rules)
  {
    Matched(lib, db, NewEvent(lib, t, line.eventId, line.now))
  }

  lemma FirstStep(lib: Lib, window: int, db: DB, line: Line, t: Telemetry)
    requires IdsMatch(db.rules) && Admitted(lib, db, line.raw, line.now) == Success(t)
    ensures NextPc(lib, window, db, line, Begun) == Parsed(t)
  {
  }

  lemma UnseenSteps(lib: Lib, window: int, db: DB, line: Line, t: Telemetry)
    requires IdsMatch(db.rules) && Key(lib, t) !in db.raws
    ensures NextPc(lib, window, db, line, Parsed(t)) == Opened(t)
    ensures NextPc(lib, window, db, line, Opened(t)) == Unseen(t)
    ensures NextPc(lib, window, db, line, Unseen(t)) == Chosen(t, RulesFor(lib, db, line, t))
  {
  }

  lemma AtTwice(w: World, i: nat, a: Pc, b: Pc)
    requires i < |w.pcs|
    ensures At(At(w, i, a, []), i, b, []) == At(w, i, b, [])
  {
    assert w.pcs[i := a][i := b] == w.pcs[i := b] && w.turns + [] + [] == w.turns + [];
  }

  /** Request i on its own as far as its commit: it finds its key unseen twice and reads the rules. */
  lemma UpToCommit(lib: Lib, window: int, first: World, acts: seq<Act>, w: World, i: nat, t: Telemetry)
    returns (more: seq<Act>)
    requires Reached(lib, window, first, acts, w) && i < |w.lines| == |w.pcs| && IdsMatch(w.db.rules)
    requires w.pcs[i] == Begun && Admitted(lib, w.db, w.lines[i].raw, w.lines[i].now) == Success(t) && Key(lib, t) !in w.db.raws
    ensures Reached(lib, window, first, more, At(w, i, Chosen(t, RulesFor(lib, w.db, w.lines[i], t)), []))
  {
    var rules := RulesFor(lib, w.db, w.lines[i], t);
    FirstStep(lib, window, w.db, w.lines[i], t);
    UnseenSteps(lib, window, w.db, w.lines[i], t);
    GoesTo(lib, window, first, acts, w, i, Parsed(t));
    more := acts + [Go(i)];
    AtTwice(w, i, Parsed(t), Opened(t));
    GoesTo(lib, window, first, more, At(w, i, Parsed(t), []), i, Opened(t));
    more := more + [Go(i)];
    AtTwice(w, i, Opened(t), Unseen(t));
    GoesTo(lib, window, first, more, At(w, i, Opened(t), []), i, Unseen(t));
    more := more + [Go(i)];
    AtTwice(w, i, Unseen(t), Chosen(t, rules));
    GoesTo(lib, window, first, more, At(w, i, Unseen(t), []), i, Chosen(t, rules));
    more := more + [Go(i)];
  }

  lemma AdmittedCommits(lib: Lib, db: DB, line: Line, t: Telemetry)
    requires Admitted(lib, db, line.raw, line.now) == Success(t) && Key(lib, t) !in db.raws && line.eventId !in db.events
    ensures CommitRefused(lib, db, t, line).None? && t.deviceId in db.devices
  {
  }

  /** Two requests at their commits, with one key. */
  lemma SecondCommitFails(lib: Lib, window: int, first: World, acts: seq<Act>, w: World, t: Telemetry)
    returns (more: seq<Act>, r: World)
    requires Reached(lib, window, first, acts, w) && |w.lines| == |w.pcs| == 2 && IdsMatch(w.db.rules)
    requires w.pcs[0].Chosen? && w.pcs[1].Chosen? && w.pcs[0].tel == w.pcs[1].tel == t
    requires CommitRefused(lib, w.db, t, w.lines[0]).None? && t.deviceId in w.db.devices
    ensures Reached(lib, window, first, more, r)
    ensures |r.pcs| == 2 && AnsweredNew(r.pcs[0]) && r.pcs[1] == Answered(Some(t), Failure(Database(UniqueViolation)))
  {
    OneMoreAct(lib, window, first, acts, w, Go(0));
    var one := Committing(lib, w, 0, t, w.pcs[0].rules, true);
    assert Next(lib, window, w, Go(0)) == one;
    OneMoreAct(lib, window, first, acts + [Go(0)], one, Go(1));
    LateLoserFails(lib, window, one, 1);
    more, r := acts + [Go(0)] + [Go(1)], Advance(lib, window, one, 1);
  }

  /** Two requests for one new line can both pass both checks; the one that commits second gets an error,
      although its line is a duplicate by then. */
  lemma RaceEndsInAnError(lib: Lib, window: int, db: DB, line: Line, other: Line, t: Telemetry)
    returns (acts: seq<Act>, w: World)
    requires IdsMatch(db.rules) && Admitted(lib, db, line.raw, line.now) == Success(t) && Key(lib, t) !in db.raws
    requires other == line.(eventId := other.eventId) && line.eventId !in db.events
    ensures Reached(lib, window, Initial(db, [line, other]), acts, w)
    ensures |w.pcs| == 2 && AnsweredNew(w.pcs[0]) && w.pcs[1] == Answered(Some(t), Failure(Database(UniqueViolation)))
  {
    var first := Initial(db, [line, other]);
    acts := UpToCommit(lib, window, first, [], first, 0, t);
    var one := At(first, 0, Chosen(t, RulesFor(lib, db, line, t)), []);
    acts := UpToCommit(lib, window, first, acts, one, 1, t);
    var two := At(one, 1, Chosen(t, RulesFor(lib, db, other, t)), []);
    AdmittedCommits(lib, db, line, t);
    acts, w := SecondCommitFails(lib, window, first, acts, two, t);
  }

  // ---------------------------------------------------------------- the other operations

  lemma ReplayMayComeBetween(c: S.Config, s: S.W.Sys, eventId: string, now: int)
    requires S.Inv(c, s)
    ensures OtherStep(s.db, ReplayOf(c.lib, s.db, eventId, now).0)
  {
    S.ReplayKeeps(c, s, eventId, now);
    ReplayFrame(c.lib, s.db, eventId, now);
  }

  lemma DevicesMayComeBetween(db: DB, devices: map<string, Device>)
    requires DH.RowsHaveEvents(db) && IdsMatch(db.rules) && db.devices.Keys <= devices.Keys
    ensures OtherStep(db, db.(devices := devices))
  {
  }

  lemma PassMayComeBetween(db: DB, r: DB)
    requires DH.OnlySettles(db, r) && DH.RowsHaveEvents(db) && IdsMatch(db.rules)
    ensures OtherStep(db, r)
  {
    DH.ShapeKeepsLinks(db, r);
  }

  /** Every operation of a serial run other than ingest is one that may come in between. */
  lemma OtherOpsMayComeBetween(c: S.Config, s: S.W.Sys, op: S.Op)
    requires S.Inv(c, s) && S.CanStep(c, s, op) && !op.IngestLine?
    ensures OtherStep(s.db, S.Step(c, s, op).db)
  {
    match op {
      case EditDevices(devices) => DevicesMayComeBetween(s.db, devices);
      case Replay(eventId, now) => ReplayMayComeBetween(c, s, eventId, now);
      case Create(input, newId, operator, now) =>
        RuleEdits.CreateFrame(s.db, input, newId, operator, now);
      case Update(ruleId, input, operator, now) =>
        RuleEdits.UpdateFrame(s.db, ruleId, input, operator, now);
      case Delete(ruleId, operator, now) =>
        RuleEdits.DeleteFrame(s.db, ruleId, operator, now);
      case WorkerPass(now, errors) =>
        DH.PassOnlySettles(c.opts, s, now, errors);
        PassMayComeBetween(s.db, S.W.Pass(c.opts, s, now, errors).db);
    }
  }

  /** Replays and worker passes leave rules and devices alone, so they have a place in the serial order. */
  lemma CalmOps(c: S.Config, s: S.W.Sys, op: S.Op)
    requires S.Inv(c, s) && S.CanStep(c, s, op) && (op.Replay? || op.WorkerPass?)
    ensures OtherStep(s.db, S.Step(c, s, op).db) && SameAdmission(s.db, S.Step(c, s, op).db)
  {
    OtherOpsMayComeBetween(c, s, op);
    match op {
      case Replay(eventId, now) => ReplayFrame(c.lib, s.db, eventId, now);
      case WorkerPass(now, errors) => DH.PassOnlySettles(c.opts, s, now, errors);
    }
  }
}
