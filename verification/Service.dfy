/** The service as it runs: each request works on the tables statement by statement, and a
    transaction on a copy that is adopted when it commits. */
module Service {
  import opened Dedup
  import opened Domain
  import opened GoLib
  import opened Ingest
  import opened Router
  import opened RuleEdits
  import opened Tables
  import opened Wire

  class Service {
    const lib: Lib
    const store: Store
    const window: int

    constructor (lib: Lib, store: Store, window: int)
      ensures this.lib == lib && this.store == store && this.window == window
    {
      this.lib, this.store, this.window := lib, store, window;
    }

    // -------------------------------------------------------------- telemetry

    method IngestTelemetry(raw: string, now: int, eventId: string) returns (r: Response<TelemetryResult>)
      requires IdsMatch(store.rules)
      modifies store
      ensures (store.View(), r) == IngestOf(lib, old(store.View()), raw, now, eventId, window)
    {
      var parsed := ParseMessage(lib, raw, now);
      if parsed.Rejected? {
        return Failure(InvalidTelemetry(parsed.reason));
      }
      var tel := parsed.telemetry;
      if tel.deviceId !in store.devices {
        return Failure(DeviceNotFound);
      }
      if !store.devices[tel.deviceId].status.DeviceActive? {
        return Failure(DeviceInactive);
      }
      var key := Key(lib, tel);
      if SeenRecently(store.View(), key, now, window) {
        var known := DuplicateResult(store, store.raws[key]);
        return Success(known);
      }
      r := InTx(tel, raw, key, now, eventId);
    }

    /** The transaction, its rollback, and what its errors turn into. */
    method InTx(tel: Telemetry, raw: string, key: string, now: int, eventId: string) returns (r: Response<TelemetryResult>)
      requires IdsMatch(store.rules) && key == Key(lib, tel)
      modifies store
      ensures (store.View(), r) == IngestTx(lib, old(store.View()), tel, raw, now, eventId)
    {
      var tx := new Store(store.View());
      r := InsertAll(tx, tel, raw, key, now, eventId);
      if r.Success? {
        store.Adopt(tx.View());
      } else if r.error.DuplicateMessage? && key in store.raws {
        var known := DuplicateResult(store, store.raws[key]);
        return Success(known);
      }
    }

    /** The body of the transaction. */
    method InsertAll(tx: Store, tel: Telemetry, raw: string, key: string, now: int, eventId: string)
      returns (r: Response<TelemetryResult>)
      requires IdsMatch(tx.rules) && key == Key(lib, tel)
      modifies tx
      ensures r == Failure(DuplicateMessage) <==> Seen(old(tx.View()), key)
      ensures !Seen(old(tx.View()), key) ==> r == IngestTx(lib, old(tx.View()), tel, raw, now, eventId).1
      ensures r.Success? ==> tx.View() == Committed(lib, old(tx.View()), tel, raw, now, eventId)
    {
      if Seen(tx.View(), key) {
        return Failure(DuplicateMessage);
      }
      var event := NewEvent(lib, tel, eventId, now);
      var refused := tx.CreateEvent(event);
      if refused.Some? {
        return Failure(Database(refused.value));
      }
      refused := tx.InsertRaw(NewRaw(lib, tel, raw, eventId, now));
      if refused.Some? {
        return Failure(Database(refused.value));
      }
      tx.TouchSeen(tel.deviceId, now);
      var matched := MatchLive(tx, event);
      var topics := Topics(matched);
      var ids := CreateDeliveries(tx, eventId, matched, topics, now);
      assert topics == TopicsOf(matched);
      r := Success(TelemetryResult(eventId, false, ids, topics));
    }

    /** The rules that are not deleted, matched against an event. */
    method MatchLive(st: Store, ev: Event) returns (matched: seq<RouteRule>)
      requires IdsMatch(st.rules)
      ensures matched == Matched(lib, st.View(), ev)
      ensures forall i :: 0 <= i < |matched| ==> matched[i].ruleId in st.rules
    {
      var rules := st.ListRules();
      matched := Match(lib, ev, rules);
      MatchIsCanonical(lib, ev, rules, matched);
      MatchedAreRules(lib, st.View(), ev);
    }

    method CreateDeliveries(tx: Store, eventId: string, matched: seq<RouteRule>, topics: seq<string>, now: int)
      returns (ids: seq<string>)
      requires eventId in tx.events && |topics| == |matched|
      requires forall i :: 0 <= i < |matched| ==> matched[i].ruleId in tx.rules && topics[i] == matched[i].topic
      modifies tx`deliveries
      ensures tx.deliveries == old(tx.deliveries) + NewRows(eventId, matched, |old(tx.deliveries)|, now)
      ensures ids == IdsOf(matched)
    {
      ids := [];
      for i := 0 to |matched|
        invariant ids == IdsOf(matched)[..i]
        invariant tx.deliveries == old(tx.deliveries) + NewRows(eventId, matched, |old(tx.deliveries)|, now)[..i]
      {
        ids := ids + [matched[i].ruleId];
        var refused := tx.CreateDelivery(
          Delivery(0, eventId, matched[i].ruleId, topics[i], DeliveryPending, 0, "", Some(now), None));
      }
    }

    method DuplicateResult(st: Store, existing: RawMessage) returns (res: TelemetryResult)
      requires IdsMatch(st.rules)
      ensures res == DuplicateOf(lib, st.View(), existing)
    {
      res := TelemetryResult("", true, [], []);
      if existing.eventId.Some? {
        res := res.(eventId := existing.eventId.value);
        if res.eventId in st.events {
          var matched := MatchLive(st, st.events[res.eventId]);
          var topics := Topics(matched);
          assert topics == TopicsOf(matched);
          res := res.(topics := topics);
          for i := 0 to |matched|
            invariant res == TelemetryResult(existing.eventId.value, true, IdsOf(matched)[..i], topics)
          {
            res := res.(matchedRules := res.matchedRules + [matched[i].ruleId]);
          }
          assert IdsOf(matched)[..|matched|] == IdsOf(matched);
        }
      }
    }

    // -------------------------------------------------------------- replay

    method ReplayEvent(eventId: string, now: int) returns (r: Response<ReplayResult>)
      requires IdsMatch(store.rules)
      modifies store`deliveries
      ensures (store.View(), r) == ReplayOf(lib, old(store.View()), eventId, now)
    {
      if eventId !in store.events {
        return Failure(EventNotFound);
      }
      var matched := MatchLive(store, store.events[eventId]);
      var pending := PendingRules(eventId);
      var created := CreateLacking(eventId, matched, pending, now);
      var ids := [];
      for i := 0 to |matched|
        invariant ids == IdsOf(matched)[..i]
      {
        ids := ids + [matched[i].ruleId];
      }
      assert ids == IdsOf(matched);
      r := Success(ReplayResult(eventId, ids, created, |created|));
    }

    method PendingRules(eventId: string) returns (pending: set<string>)
      ensures pending == OpenRules(store.deliveries, eventId)
    {
      var existing := store.ListDeliveriesByEvent(eventId);
      pending := {};
      OfEventContents(store.deliveries, eventId);
      for i := 0 to |existing|
        invariant pending == OpenRules(existing[..i], eventId)
      {
        OneMoreRow(existing, eventId, i);
        assert existing[i] in existing;
        if Open(existing[i]) {
          pending := pending + {existing[i].ruleId};
        }
      }
      assert existing[..|existing|] == existing;
      OpenRulesOfEvent(store.deliveries, eventId);
    }

    method CreateLacking(eventId: string, matched: seq<RouteRule>, pending: set<string>, now: int) returns (created: seq<string>)
      requires eventId in store.events
      requires forall i :: 0 <= i < |matched| ==> matched[i].ruleId in store.rules
      modifies store`deliveries
      ensures store.deliveries == old(store.deliveries) + NewRows(eventId, Lacking(matched, pending), |old(store.deliveries)|, now)
      ensures created == IdsOf(Lacking(matched, pending))
    {
      created := [];
      ghost var from := |store.deliveries|;
      for i := 0 to |matched|
        invariant created == IdsOf(Lacking(matched[..i], pending))
        invariant store.deliveries == old(store.deliveries) + NewRows(eventId, Lacking(matched[..i], pending), from, now)
      {
        assert matched[..i + 1][..i] == matched[..i];
        if matched[i].ruleId in pending {
          continue;
        }
        var refused := store.CreateDelivery(
          Delivery(0, eventId, matched[i].ruleId, matched[i].topic, DeliveryPending, 0, "", Some(now), None));
        created := created + [matched[i].ruleId];
      }
      assert matched[..|matched|] == matched;
    }

    // -------------------------------------------------------------- rules

    method CreateRule(input: RuleInput, newId: string, operator: string, now: int) returns (r: Response<RouteRule>)
      modifies store
      ensures (store.View(), r) == CreateOf(old(store.View()), input, newId, operator, now)
    {
      if input.name == "" {
        return Failure(InvalidField("name"));
      }
      if input.topic == "" {
        return Failure(InvalidField("topic"));
      }
      var ruleId := if input.ruleId == "" then newId else input.ruleId;
      if ruleId in store.rules {
        return Failure(RuleConflict);
      }
      var rule := RouteRule(0, ruleId, input.name, input.matcher, input.topic, input.priority, input.enabled, None, now, now);
      var tx := new Store(store.View());
      var refused := tx.CreateRule(rule);
      if refused.None? {
        refused := tx.AppendChange(Change(ruleId, ActionCreate, None, Some(Snapshot(rule)), operator, now));
      }
      if refused.Some? {
        return Failure(if refused == Some(UniqueViolation) then RuleConflict else Database(refused.value));
      }
      store.Adopt(tx.View());
      r := Success(rule);
    }

    method UpdateRule(ruleId: string, input: RuleInput, operator: string, now: int) returns (r: Response<RouteRule>)
      requires IdsMatch(store.rules)
      modifies store
      ensures (store.View(), r) == UpdateOf(old(store.View()), ruleId, input, operator, now)
    {
      if ruleId !in store.rules || store.rules[ruleId].deletedAt.Some? {
        return Failure(RuleNotFound);
      }
      var existing := store.rules[ruleId];
      var updated := existing;
      if input.name != "" {
        updated := updated.(name := input.name);
      }
      if input.topic != "" {
        updated := updated.(topic := input.topic);
      }
      if input.matcher != NO_MATCHER {
        updated := updated.(matcher := input.matcher);
      }
      updated := updated.(priority := input.priority, enabled := input.enabled, updatedAt := now);
      var action := ActionUpdate;
      if !existing.enabled && updated.enabled {
        action := ActionEnable;
      } else if existing.enabled && !updated.enabled {
        action := ActionDisable;
      }
      assert updated == Edited(existing, input, now) && action == Label(existing, updated);
      var tx := new Store(store.View());
      var refused := tx.UpdateRule(updated);
      if refused.None? {
        refused := tx.AppendChange(Change(ruleId, action, Some(Snapshot(existing)), Some(Snapshot(updated)), operator, now));
      }
      if refused.Some? {
        return Failure(Database(refused.value));
      }
      store.Adopt(tx.View());
      r := Success(updated);
    }

    method DeleteRule(ruleId: string, operator: string, now: int) returns (error: Option<ServiceError>)
      modifies store
      ensures (store.View(), error) == DeleteOf(old(store.View()), ruleId, operator, now)
    {
      if ruleId !in store.rules || store.rules[ruleId].deletedAt.Some? {
        return Some(RuleNotFound);
      }
      var existing := store.rules[ruleId];
      var after := existing.(enabled := false, deletedAt := Some(now), updatedAt := now);
      var tx := new Store(store.View());
      tx.SoftDelete(ruleId, now);
      var refused := tx.AppendChange(Change(ruleId, ActionDelete, Some(Snapshot(existing)), Some(Snapshot(after)), operator, now));
      store.Adopt(tx.View());
      error := None;
    }
  }

  lemma OneMoreRow(rows: seq<Delivery>, eventId: string, i: nat)
    requires i < |rows|
    ensures
      OpenRules(rows[..i + 1], eventId) == OpenRules(rows[..i], eventId) +
        (if rows[i].eventId == eventId && Open(rows[i]) then {rows[i].ruleId} else {})
  {
    assert rows[..i + 1] == rows[..i] + [rows[i]];
  }

  lemma {:induction false} OfEventContents(rows: seq<Delivery>, eventId: string)
    ensures forall d :: d in OfEvent(rows, eventId) <==> d in rows && d.eventId == eventId
  {
    if rows != [] {
      var n := |rows| - 1;
      OfEventContents(rows[..n], eventId);
      assert rows == rows[..n] + [rows[n]];
    }
  }

  /** Only the event's own rows matter. */
  lemma OpenRulesOfEvent(rows: seq<Delivery>, eventId: string)
    ensures OpenRules(OfEvent(rows, eventId), eventId) == OpenRules(rows, eventId)
  {
    OfEventContents(rows, eventId);
  }
}
