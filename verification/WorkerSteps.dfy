/** Runs in which the worker lists a batch in one step and dispatches each of its rows in a step of its own,
    with requests and edits in between, as the server does. */
module WorkerSteps {
  import opened DeliveryHistory
  import opened GoLib
  import opened System
  import opened Tables
  import Domain
  import Drain
  import W = Worker

  /** The system, and the rows of the pass under way that are still to be dispatched, as it listed them. */
  datatype State = State(sys: W.Sys, pending: seq<Domain.Delivery>, at: int)

  /** An operation of a request; the start of a pass; its next dispatch; its end before time. */
  datatype Move = Do(op: Op) | List(now: int) | DispatchNext(error: Option<string>) | Abandon

  ghost predicate Runs(st: State) {
    WellFormed(st.sys.db) && forall d :: d in st.pending ==> d.id < |st.sys.db.deliveries|
  }

  ghost predicate CanMove(c: Config, st: State, move: Move)
    requires Runs(st)
  {
    match move
    case Do(op) => !op.WorkerPass? && CanStep(c, st.sys, op)
    case List(_) => st.pending == []
    case DispatchNext(_) => st.pending != []
    case Abandon => true
  }

  ghost function After(c: Config, st: State, move: Move): State
    requires Runs(st) && CanMove(c, st, move)
  {
    match move
    case Do(op) => st.(sys := Step(c, st.sys, op))
    case List(now) => st.(pending := Batch(st.sys.db.deliveries, now, c.opts.batchSize), at := now)
    case DispatchNext(error) =>
      assert st.pending[0] in st.pending;
      st.(sys := W.Dispatched(c.opts, st.sys, st.pending[0], st.at, error), pending := st.pending[1..])
    case Abandon => st.(pending := [])
  }

  /** The invariants, and the rest of the batch stands as it was listed: open, current and each row once. */
  ghost predicate Holds(c: Config, st: State) {
    Inv(c, st.sys) && Fresh(st.sys.db.deliveries, st.pending)
  }

  // ---------------------------------------------------------------- every step

  lemma OperationKeeps(c: Config, st: State, op: Op)
    requires Holds(c, st) && !op.WorkerPass? && CanStep(c, st.sys, op)
    ensures Holds(c, After(c, st, Do(op)))
  {
    var rows, r := st.sys.db.deliveries, DbStep(c, st.sys.db, op);
    StepKeeps(c, st.sys, op);
    OtherStepExtends(c, st.sys, op, if op.EditDevices? then 0 else op.now);
    forall d | d in st.pending ensures d.id < |r.deliveries| && r.deliveries[d.id] == d && Open(d) {
      assert r.deliveries[..|rows|][d.id] == r.deliveries[d.id];
    }
  }

  lemma DispatchIsSettling(c: Config, st: State, error: Option<string>)
    requires Holds(c, st) && st.pending != []
    ensures
      var r := After(c, st, DispatchNext(error)).sys;
      Recorded(c.opts, r) && OnlySettles(st.sys.db, r.db)
  {
    var d := st.pending[0];
    assert d in st.pending;
    DispatchKeeps(c.opts, st.sys, d, st.at, error);
    DispatchOnlySettles(c.opts, st.sys.db, st.sys, d, st.at, error);
  }

  /** A dispatch leaves the other rows of its batch as they were listed. */
  lemma OthersStayFresh(rows: seq<Domain.Delivery>, batch: seq<Domain.Delivery>, r: seq<Domain.Delivery>, d: Domain.Delivery)
    requires Fresh(rows, batch) && batch != []
    requires batch[0].id < |rows| && r == rows[batch[0].id := d]
    ensures Fresh(r, batch[1..])
  {
    var rest := batch[1..];
    forall i | 0 <= i < |rest| ensures rest[i] in batch && rest[i].id != batch[0].id {
      assert rest[i] == batch[i + 1];
    }
  }

  /** Every step keeps every invariant, and the rest of the batch up to date. */
  lemma MoveKeeps(c: Config, st: State, move: Move)
    requires Holds(c, st) && CanMove(c, st, move)
    ensures Holds(c, After(c, st, move))
  {
    match move {
      case Do(op) => OperationKeeps(c, st, op);
      case List(now) => BatchIsFresh(st.sys.db.deliveries, now, c.opts.batchSize);
      case DispatchNext(error) =>
        var d := st.pending[0];
        assert d in st.pending;
        DispatchIsSettling(c, st, error);
        SettlingKeepsInv(c, st.sys, After(c, st, move).sys);
        DispatchedRows(c.opts, st.sys, d, st.at, error);
        OthersStayFresh(st.sys.db.deliveries, st.pending, After(c, st, move).sys.db.deliveries,
                        W.Settled(c.opts, d, st.at, error));
      case Abandon =>
    }
  }

  lemma MoveOnlyAdds(c: Config, st: State, move: Move)
    requires Holds(c, st) && CanMove(c, st, move)
    ensures OnlyAdds(st.sys, After(c, st, move).sys)
  {
    match move {
      case Do(op) => StepOnlyAdds(c, st.sys, op);
      case DispatchNext(error) =>
        DispatchIsSettling(c, st, error);
        SettlingOnlyAdds(st.sys, After(c, st, move).sys);
      case _ => SideTablesOnlyAdd(st.sys, st.sys.db);
    }
  }

  lemma SettlingOnlyAdds(s: W.Sys, r: W.Sys)
    requires OnlySettles(s.db, r.db) && s.calls <= r.calls
    ensures OnlyAdds(s, r)
  {
    assert r.db.deliveries[..|s.db.deliveries|] == r.db.deliveries;
  }

  /** Each dispatch calls the sink once and uses up some of the work. */
  lemma DispatchUsesWork(c: Config, st: State, error: Option<string>)
    requires Holds(c, st) && st.pending != []
    ensures
      var r := After(c, st, DispatchNext(error)).sys;
      && |r.calls| == |st.sys.calls| + 1
      && Drain.Work(c.opts.maxAttempt, r.db.deliveries) < Drain.Work(c.opts.maxAttempt, st.sys.db.deliveries)
  {
    assert st.pending[0] in st.pending;
    Drain.DispatchPays(c.opts, st.sys, st.pending[0], st.at, error);
  }

  // ---------------------------------------------------------------- every run

  ghost predicate CanGo(c: Config, st: State, moves: seq<Move>)
    requires Holds(c, st)
    decreases |moves|
  {
    moves != [] ==>
      && CanMove(c, st, moves[0])
      && (MoveKeeps(c, st, moves[0]);
          CanGo(c, After(c, st, moves[0]), moves[1..]))
  }

  ghost function Goes(c: Config, st: State, moves: seq<Move>): (r: State)
    requires Holds(c, st) && CanGo(c, st, moves)
    ensures Holds(c, r)
    decreases |moves|
  {
    if moves == [] then st
    else
      MoveKeeps(c, st, moves[0]);
      Goes(c, After(c, st, moves[0]), moves[1..])
  }

  const START := State(W.Sys(EMPTY, []), [], 0)

  /** st is where the moves lead from the empty tables. */
  ghost predicate LeadTo(c: Config, moves: seq<Move>, st: State) {
    if moves == [] then st == START
    else
      var n := |moves| - 1;
      exists before ::
        LeadTo(c, moves[..n], before) && Runs(before) && CanMove(c, before, moves[n]) && st == After(c, before, moves[n])
  }

  /** However requests and edits fall between the dispatches of a pass, every invariant holds. */
  lemma {:induction false} ReachedIsFine(c: Config, moves: seq<Move>, st: State)
    requires c.opts.maxAttempt >= 1 && LeadTo(c, moves, st)
    ensures Holds(c, st)
    decreases |moves|
  {
    if moves == [] {
      EmptyIsFine(c);
    } else {
      var n := |moves| - 1;
      var before :|
        LeadTo(c, moves[..n], before) && Runs(before) && CanMove(c, before, moves[n]) && st == After(c, before, moves[n]);
      ReachedIsFine(c, moves[..n], before);
      MoveKeeps(c, before, moves[n]);
    }
  }

  /** And no run takes anything back. */
  lemma {:induction false} RunAddsOnly(c: Config, st: State, moves: seq<Move>)
    requires Holds(c, st) && CanGo(c, st, moves)
    ensures OnlyAdds(st.sys, Goes(c, st, moves).sys)
    decreases |moves|
  {
    if moves == [] {
      SideTablesOnlyAdd(st.sys, st.sys.db);
    } else {
      MoveKeeps(c, st, moves[0]);
      MoveOnlyAdds(c, st, moves[0]);
      var next := After(c, st, moves[0]);
      RunAddsOnly(c, next, moves[1..]);
      AddingOn(st.sys, next.sys, Goes(c, next, moves[1..]).sys);
    }
  }

  // ---------------------------------------------------------------- an undisturbed pass

  function Dispatches(errors: seq<Option<string>>): seq<Move> {
    if errors == [] then [] else [DispatchNext(errors[0])] + Dispatches(errors[1..])
  }

  lemma {:induction false} FirstThenRest(o: W.Options, s: W.Sys, batch: seq<Domain.Delivery>, now: int, errors: seq<Option<string>>)
    requires batch != [] && |errors| == |batch| && forall d :: d in batch ==> d.id < |s.db.deliveries|
    ensures batch[0] in batch && forall d :: d in batch[1..] ==> d in batch
    ensures
      var once := W.Dispatched(o, s, batch[0], now, errors[0]);
      |once.db.deliveries| == |s.db.deliveries| &&
      W.RunBatch(o, s, batch, now, errors) == W.RunBatch(o, once, batch[1..], now, errors[1..])
    decreases |batch|
  {
    var n := |batch| - 1;
    if n > 0 {
      FirstThenRest(o, s, batch[..n], now, errors[..n]);
      assert batch[1..][..n - 1] == batch[..n][1..] && errors[1..][..n - 1] == errors[..n][1..];
    }
  }

  /** The rows of a batch dispatched step by step, with nothing in between, are dispatched as in one pass. */
  lemma {:induction false} DispatchesAreBatch(c: Config, st: State, errors: seq<Option<string>>)
    requires Holds(c, st) && |errors| == |st.pending|
    ensures CanGo(c, st, Dispatches(errors))
    ensures Goes(c, st, Dispatches(errors)).sys == W.RunBatch(c.opts, st.sys, st.pending, st.at, errors)
    decreases |errors|
  {
    if errors != [] {
      var move := DispatchNext(errors[0]);
      MoveKeeps(c, st, move);
      FirstThenRest(c.opts, st.sys, st.pending, st.at, errors);
      DispatchesAreBatch(c, After(c, st, move), errors[1..]);
      assert Dispatches(errors)[0] == move && Dispatches(errors)[1..] == Dispatches(errors[1..]);
    }
  }

  /** So listing and then dispatching is a pass. */
  lemma StepsArePass(c: Config, st: State, now: int, errors: seq<Option<string>>)
    requires Holds(c, st) && st.pending == [] && |errors| == |Batch(st.sys.db.deliveries, now, c.opts.batchSize)|
    ensures CanGo(c, st, [List(now)] + Dispatches(errors))
    ensures Goes(c, st, [List(now)] + Dispatches(errors)).sys == W.Pass(c.opts, st.sys, now, errors)
  {
    var moves := [List(now)] + Dispatches(errors);
    assert moves[0] == List(now) && moves[1..] == Dispatches(errors);
    MoveKeeps(c, st, List(now));
    DispatchesAreBatch(c, After(c, st, List(now)), errors);
  }
}
