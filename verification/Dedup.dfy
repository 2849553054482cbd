/** The deduplication key of a telemetry message. */
module Dedup {
  import opened Text
  import opened GoLib
  import opened Wire

  /** Time.UnixNano: nanoseconds in a signed 64-bit word, which wraps outside the years 1678 to 2262. */
  function UnixNano(ts: int): int {
    Wrap64(ts)
  }

  function KeyParts(lib: Lib, t: Telemetry): (parts: seq<string>)
    ensures |parts| == 5
  {
    [t.deviceId, Itoa(UnixNano(t.ts)), t.metric, lib.formatShort(t.value), t.unit]
  }

  /** The text that is hashed. */
  function Preimage(lib: Lib, t: Telemetry): string {
    Join(KeyParts(lib, t))
  }

  function Key(lib: Lib, t: Telemetry): string {
    lib.digest(Preimage(lib, t))
  }

  /** Time.Sub: a duration, which stops at the ends of the 64-bit range. */
  function Elapsed(from: int, to: int): int {
    if to - from < -TWO_63 then -TWO_63 else if to - from >= TWO_63 then TWO_63 - 1 else to - from
  }

  predicate WithinWindow(receivedAt: int, now: int, window: int) {
    Elapsed(receivedAt, now) <= window
  }

  /** A message is within the window when no more time has gone by than it allows; the longest window a
      64-bit duration can name allows any time. */
  lemma WindowMeans(receivedAt: int, now: int, window: int)
    requires -9_223_372_036_854_775_808 <= window <= 9_223_372_036_854_775_807
    ensures WithinWindow(receivedAt, now, window) <==>
      now - receivedAt <= window || window == 9_223_372_036_854_775_807
  {
  }

  /** The two messages agree in everything a key depends on. */
  predicate SameReading(s: Telemetry, t: Telemetry) {
    && s.deviceId == t.deviceId && s.metric == t.metric && s.unit == t.unit && s.value == t.value
    && (s.ts - t.ts) % TWO_64 == 0
  }

  lemma UnixNanoIsModular(s: int, t: int)
    ensures UnixNano(s) == UnixNano(t) <==> (s - t) % TWO_64 == 0
  {
    var a, b := s + TWO_63, t + TWO_63;
    assert a == a / TWO_64 * TWO_64 + a % TWO_64 && b == b / TWO_64 * TWO_64 + b % TWO_64;
    var k := a / TWO_64 - b / TWO_64;
    assert s - t == k * TWO_64 + (a % TWO_64 - b % TWO_64);
  }

  predicate PlainReading(lib: Lib, t: Telemetry) {
    Plain(t.deviceId) && Plain(t.metric) && Plain(t.unit) && lib.isDouble(t.value)
  }

  lemma AcceptedIsPlain(lib: Lib, raw: string, now: int)
    requires lib.Lawful() && ParseMessage(lib, raw, now).Accepted?
    ensures PlainReading(lib, ParseMessage(lib, raw, now).telemetry)
  {
    AcceptedFieldsArePlain(lib, raw, now);
    var fields, checksum := AcceptedLine(lib, raw, now);
  }

  lemma SplitPreimage(lib: Lib, t: Telemetry)
    requires lib.Lawful() && PlainReading(lib, t)
    ensures Split(Preimage(lib, t)) == KeyParts(lib, t)
  {
    ItoaReads(UnixNano(t.ts));
    SplitJoin(KeyParts(lib, t));
  }

  lemma SamePartsSameReading(lib: Lib, s: Telemetry, t: Telemetry)
    requires lib.Lawful() && lib.isDouble(s.value) && lib.isDouble(t.value)
    ensures KeyParts(lib, s) == KeyParts(lib, t) <==> SameReading(s, t)
  {
    var p, q := KeyParts(lib, s), KeyParts(lib, t);
    UnixNanoIsModular(s.ts, t.ts);
    if p == q {
      assert p[0] == q[0] && p[1] == q[1] && p[2] == q[2] && p[3] == q[3] && p[4] == q[4];
      ItoaIsInjective(UnixNano(s.ts), UnixNano(t.ts));
      assert lib.parseFloat(p[3]) == lib.parseFloat(q[3]);
    }
  }

  lemma PlainPreimageIsInjective(lib: Lib, s: Telemetry, t: Telemetry)
    requires lib.Lawful() && PlainReading(lib, s) && PlainReading(lib, t)
    ensures Preimage(lib, s) == Preimage(lib, t) <==> SameReading(s, t)
  {
    SplitPreimage(lib, s);
    SplitPreimage(lib, t);
    SamePartsSameReading(lib, s, t);
  }

  /** Of two accepted lines, the hashed texts are equal exactly when the readings are. */
  lemma PreimageIsInjective(lib: Lib, raw: string, now: int, other: string, later: int)
    requires lib.Lawful()
    requires ParseMessage(lib, raw, now).Accepted? && ParseMessage(lib, other, later).Accepted?
    ensures
      var s, t := ParseMessage(lib, raw, now).telemetry, ParseMessage(lib, other, later).telemetry;
      Preimage(lib, s) == Preimage(lib, t) <==> SameReading(s, t)
  {
    AcceptedIsPlain(lib, raw, now);
    AcceptedIsPlain(lib, other, later);
    PlainPreimageIsInjective(lib, ParseMessage(lib, raw, now).telemetry, ParseMessage(lib, other, later).telemetry);
  }

  /** For messages received within some 584 years of one another the instants themselves agree. */
  lemma SameInstant(s: Telemetry, t: Telemetry)
    requires SameReading(s, t) && -TWO_64 < s.ts - t.ts < TWO_64
    ensures s.ts == t.ts
  {
  }

  /** Equal numbers need not give equal keys: 0 and -0 are written differently. */
  lemma SignedZerosAreTold(lib: Lib, s: Telemetry, t: Telemetry)
    requires lib.Lawful() && PlainReading(lib, s) && PlainReading(lib, t)
    requires s.value == Fin(false, 0.0) && t == s.(value := Fin(true, 0.0))
    ensures FloatEq(s.value, t.value) && Preimage(lib, s) != Preimage(lib, t)
  {
    PlainPreimageIsInjective(lib, s, t);
  }
}
