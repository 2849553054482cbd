/** A stored message is remembered for ever: no run forgets its key. */
module Deduplication {
  import opened Dedup
  import opened Domain
  import opened GoLib
  import opened Ingest
  import opened System
  import opened Text
  import opened Tables
  import opened Wire
  import W = Worker

  /** The answer to a line whose key is that of a stored message. */
  lemma KnownKeyIsDuplicate(lib: Lib, db: DB, raw: string, now: int, eventId: string, window: int, key: string)
    requires IdsMatch(db.rules) && Paired(db) && key in db.raws
    requires Admitted(lib, db, raw, now).Success? && Key(lib, Admitted(lib, db, raw, now).value) == key
    ensures
      var (r, answer) := IngestOf(lib, db, raw, now, eventId, window);
      && r == db && answer.Success? && answer.value.duplicate
      && Some(answer.value.eventId) == db.raws[key].eventId
  {
    assert RawOfEvent(db, key, db.raws[key].eventId.value);
    DuplicateExactly(lib, db, raw, now, eventId, window);
    DuplicateNames(lib, db, db.raws[key]);
    IngestCommitsOrNot(lib, db, raw, now, eventId, window);
  }

  /** After every run that follows, at any time and for any window, an admitted line with the key of a stored
      message changes nothing and is answered as a duplicate of the first event. */
  lemma RememberedForEver(c: Config, s: W.Sys, ops: seq<Op>, key: string, raw: string, now: int, eventId: string, window: int)
    requires Inv(c, s) && CanRun(c, s, ops) && key in s.db.raws
    requires
      var t := Admitted(c.lib, RunFrom(c, s, ops).db, raw, now);
      t.Success? && Key(c.lib, t.value) == key
    ensures
      var db := RunFrom(c, s, ops).db;
      var (r, answer) := IngestOf(c.lib, db, raw, now, eventId, window);
      && r == db && answer.Success? && answer.value.duplicate
      && Some(answer.value.eventId) == s.db.raws[key].eventId
  {
    RunOnlyAdds(c, s, ops);
    KnownKeyIsDuplicate(c.lib, RunFrom(c, s, ops).db, raw, now, eventId, window, key);
  }

  /** A line that was answered with a new event is a duplicate of that event whenever it comes again: as
      often as it is sent, it makes one event. */
  lemma SentTwice(c: Config, s: W.Sys, raw: string, eventId: string, now: int, ops: seq<Op>, later: int, drawn: string)
    requires Inv(c, s) && IsNew(IngestOf(c.lib, s.db, raw, now, eventId, c.window).1)
    requires CanRun(c, s, [IngestLine(raw, eventId, now)] + ops)
    requires Admitted(c.lib, RunFrom(c, s, [IngestLine(raw, eventId, now)] + ops).db, raw, later).Success?
    ensures
      var db := RunFrom(c, s, [IngestLine(raw, eventId, now)] + ops).db;
      var (r, answer) := IngestOf(c.lib, db, raw, later, drawn, c.window);
      r == db && answer.Success? && answer.value.duplicate && answer.value.eventId == eventId
  {
    var op := IngestLine(raw, eventId, now);
    var all := [op] + ops;
    assert all[0] == op && all[1..] == ops;
    StepKeeps(c, s, op);
    var once := Step(c, s, op);
    IngestCommitsOrNot(c.lib, s.db, raw, now, eventId, c.window);
    var t := Admitted(c.lib, s.db, raw, now).value;
    ReadAgain(c.lib, s.db, RunFrom(c, s, all).db, raw, now, later);
    RememberedForEver(c, once, ops, Key(c.lib, t), raw, later, drawn, c.window);
  }

  lemma ReadAgain(lib: Lib, db: DB, r: DB, raw: string, now: int, later: int)
    requires Admitted(lib, db, raw, now).Success? && Admitted(lib, r, raw, later).Success?
    ensures Admitted(lib, r, raw, later) == Admitted(lib, db, raw, now)
  {
    AdmittedIsParsed(lib, db, raw, now);
    AdmittedIsParsed(lib, r, raw, later);
    AcceptedAgain(lib, raw, now, later);
  }

  // ---------------------------------------------------------------- duplicates by what they say

  /** device|nanoseconds|metric|value|unit, the nanoseconds as a signed 64-bit number. */
  function HashedText(lib: Lib, t: Telemetry): string {
    var nanos := (t.ts + 9_223_372_036_854_775_808) % 18_446_744_073_709_551_616 - 9_223_372_036_854_775_808;
    t.deviceId + ("|" + (Itoa(nanos) + ("|" + (t.metric + ("|" + (lib.formatShort(t.value) + ("|" + t.unit)))))))
  }

  lemma KeyHashesText(lib: Lib, t: Telemetry)
    ensures Preimage(lib, t) == HashedText(lib, t) && Key(lib, t) == lib.digest(HashedText(lib, t))
  {
    var parts := KeyParts(lib, t);
    JoinOne(parts, 4);
    JoinOne(parts, 3);
    JoinOne(parts, 2);
    JoinOne(parts, 1);
    JoinOne(parts, 0);
    assert parts[0..] == parts;
  }

  lemma JoinOne(parts: seq<string>, k: nat)
    requires k < |parts|
    ensures Join(parts[k..]) == if k == |parts| - 1 then parts[k] else parts[k] + ("|" + Join(parts[k + 1..]))
  {
    assert parts[k..][1..] == parts[k + 1..];
  }

  /** The digest does not confuse the two readings. */
  predicate ToldApart(lib: Lib, s: Telemetry, t: Telemetry) {
    lib.digest(HashedText(lib, s)) == lib.digest(HashedText(lib, t)) ==> HashedText(lib, s) == HashedText(lib, t)
  }

  /** The stored line under this key, as it was read when it came. */
  ghost predicate StoredReading(lib: Lib, db: DB, key: string, s: Telemetry) {
    key in db.raws && ParseMessage(lib, db.raws[key].rawText, db.raws[key].receivedAt) == Accepted(s)
  }

  lemma StoredUnderKey(lib: Lib, db: DB, key: string)
    requires Paired(db) && Faithful(lib, db) && key in db.raws
    ensures
      var s := ParseMessage(lib, db.raws[key].rawText, db.raws[key].receivedAt);
      s.Accepted? && Key(lib, s.telemetry) == key
  {
    assert RawOfEvent(db, key, db.raws[key].eventId.value);
    assert Recites(lib, db.raws[key], db.events[db.raws[key].eventId.value]);
  }

  lemma SameKeySameReading(lib: Lib, db: DB, key: string, s: Telemetry, raw: string, now: int, t: Telemetry)
    requires lib.Lawful() && StoredReading(lib, db, key, s) && ParseMessage(lib, raw, now) == Accepted(t)
    requires ToldApart(lib, s, t)
    ensures Key(lib, s) == Key(lib, t) <==> SameReading(s, t)
  {
    KeyHashesText(lib, s);
    KeyHashesText(lib, t);
    PreimageIsInjective(lib, db.raws[key].rawText, db.raws[key].receivedAt, raw, now);
  }

  /** A line that is read as t is answered as a duplicate exactly when some stored line was read, when it
      came, as agreeing with t; the answer then names the event of that line. */
  lemma DuplicateByReading(lib: Lib, db: DB, raw: string, now: int, eventId: string, window: int, t: Telemetry)
    requires lib.Lawful() && IdsMatch(db.rules) && Paired(db) && Faithful(lib, db)
    requires ParseMessage(lib, raw, now) == Accepted(t)
    requires t.deviceId in db.devices && db.devices[t.deviceId].status == DeviceActive
    requires forall key, s :: StoredReading(lib, db, key, s) ==> ToldApart(lib, s, t)
    ensures
      var (r, answer) := IngestOf(lib, db, raw, now, eventId, window);
      (answer.Success? && answer.value.duplicate) <==> exists key, s :: StoredReading(lib, db, key, s) && SameReading(s, t)
    ensures
      var (r, answer) := IngestOf(lib, db, raw, now, eventId, window);
      forall key, s :: StoredReading(lib, db, key, s) && SameReading(s, t) ==>
        r == db && answer.Success? && Some(answer.value.eventId) == db.raws[key].eventId
  {
    var mine := Key(lib, t);
    assert Admitted(lib, db, raw, now) == Success(t);
    DuplicateExactly(lib, db, raw, now, eventId, window);
    if mine in db.raws {
      StoredUnderKey(lib, db, mine);
      var s := ParseMessage(lib, db.raws[mine].rawText, db.raws[mine].receivedAt).telemetry;
      assert StoredReading(lib, db, mine, s);
      SameKeySameReading(lib, db, mine, s, raw, now, t);
      KnownKeyIsDuplicate(lib, db, raw, now, eventId, window, mine);
    }
    forall key, s | StoredReading(lib, db, key, s) && SameReading(s, t) ensures key == mine && mine in db.raws {
      StoredUnderKey(lib, db, key);
      SameKeySameReading(lib, db, key, s, raw, now, t);
    }
  }

  /** So it is after every run. */
  lemma ReachedDuplicates(c: Config, ops: seq<Op>, s: W.Sys, raw: string, now: int, eventId: string, t: Telemetry)
    requires c.lib.Lawful() && c.opts.maxAttempt >= 1 && Reaches(c, ops, s)
    requires ParseMessage(c.lib, raw, now) == Accepted(t)
    requires t.deviceId in s.db.devices && s.db.devices[t.deviceId].status == DeviceActive
    requires forall key, u :: StoredReading(c.lib, s.db, key, u) ==> ToldApart(c.lib, u, t)
    ensures IdsMatch(s.db.rules)
    ensures
      var (r, answer) := IngestOf(c.lib, s.db, raw, now, eventId, c.window);
      (answer.Success? && answer.value.duplicate) <==> exists key, u :: StoredReading(c.lib, s.db, key, u) && SameReading(u, t)
  {
    ReachableIsFine(c, ops, s);
    DuplicateByReading(c.lib, s.db, raw, now, eventId, c.window, t);
  }
}
