/** The line protocol DEVICE|TIME|METRIC|VALUE|UNIT|CHECKSUM: validation, and its inverse. */
module Wire {
  import opened Text
  import opened GoLib
  import opened Checksum

  datatype Telemetry = Telemetry(deviceId: string, ts: int, metric: string, value: Float, unit: string, checksum: string)

  datatype Reject =
    | EmptyLine | LineTooLong
    | MissingChecksum | EmptyChecksum | MalformedChecksum
    | FieldCount | BadDeviceId
    | BadTimestamp | TimestampInFuture | TimestampTooOld
    | UnknownMetric | NotANumber | OutOfRange | ChecksumMismatch

  datatype Parsed = Accepted(telemetry: Telemetry) | Rejected(reason: Reject)

  const MAX_LINE := 4096

  // ---------------------------------------------------------------- fields

  /** The inclusive range of each whitelisted metric. */
  const METRIC_RANGES: map<string, (real, real)> := map[
    "temperature" := (-60.0, 120.0),
    "humidity" := (0.0, 100.0),
    "pressure" := (800.0, 1200.0),
    "voltage" := (0.0, 40.0),
    "current" := (0.0, 100.0),
    "wind_speed" := (0.0, 80.0)]

  predicate KnownMetric(metric: string) {
    metric in METRIC_RANGES
  }

  predicate InRange(metric: string, v: Float)
    requires KnownMetric(metric)
  {
    Finite(v) && METRIC_RANGES[metric].0 <= Number(v) <= METRIC_RANGES[metric].1
  }

  predicate DeviceChar(c: char) {
    'A' <= c <= 'Z' || '0' <= c <= '9' || c == '-'
  }

  predicate ValidDeviceId(id: string) {
    8 <= |id| <= 32 && forall c :: c in id ==> DeviceChar(c)
  }

  predicate InTimeWindow(ts: int, now: int) {
    now - 30 * DAY <= ts <= now + 5 * MINUTE
  }

  // ---------------------------------------------------------------- checksum

  datatype SplitLine = Body(body: string, checksum: string) | NoBody(reason: Reject)

  function SplitChecksum(raw: string): (r: SplitLine)
    ensures r.Body? ==> raw == r.body + [SEPARATOR] + r.checksum && Plain(r.checksum) && r.checksum != ""
  {
    var i := LastSeparator(raw);
    if i == |raw| then NoBody(MissingChecksum)
    else
      var checksum := raw[i + 1..];
      assert raw == raw[..i] + [SEPARATOR] + checksum;
      if checksum == "" then NoBody(EmptyChecksum)
      else if !HexDecodes(Upper(checksum)) then NoBody(MalformedChecksum)
      else Body(raw[..i], checksum)
  }

  // ---------------------------------------------------------------- parsing and building

  datatype Unchecked = Fields(telemetry: Telemetry, body: string, checksum: string) | Invalid(reason: Reject)

  /** Everything up to the comparison of the checksums, which comes last. */
  function ParseUnchecked(lib: Lib, raw: string, now: int): Unchecked {
    if TrimSpace(raw) == "" then Invalid(EmptyLine)
    else if |raw| > MAX_LINE then Invalid(LineTooLong)
    else
      match SplitChecksum(raw)
      case NoBody(reason) => Invalid(reason)
      case Body(body, checksum) =>
        match ParseBody(lib, Split(body), now)
        case Rejected(reason) => Invalid(reason)
        case Accepted(t) => Fields(t, body, checksum)
  }

  /** The outcome, given the checksum that the body should carry. */
  function Verdict(u: Unchecked, expected: string): Parsed {
    match u
    case Invalid(reason) => Rejected(reason)
    case Fields(t, body, checksum) =>
      if Upper(checksum) != expected then Rejected(ChecksumMismatch)
      else Accepted(t.(checksum := expected))
  }

  function ParseMessage(lib: Lib, raw: string, now: int): Parsed {
    var u := ParseUnchecked(lib, raw, now);
    if u.Invalid? then Rejected(u.reason) else Verdict(u, ChecksumHex(u.body))
  }

  /** The checks on the five fields, in their order. The checksum is filled in by the caller. */
  function ParseBody(lib: Lib, fields: seq<string>, now: int): Parsed {
    if |fields| != 5 then Rejected(FieldCount)
    else if !ValidDeviceId(fields[0]) then Rejected(BadDeviceId)
    else
      var ts := lib.parseTime(fields[1]);
      if ts.None? then Rejected(BadTimestamp)
      else if ts.value > now + 5 * MINUTE then Rejected(TimestampInFuture)
      else if ts.value < now - 30 * DAY then Rejected(TimestampTooOld)
      else
        var metric := TrimSpace(fields[2]);
        if !KnownMetric(metric) then Rejected(UnknownMetric)
        else
          var value := lib.parseFloat(TrimSpace(fields[3]));
          if value.None? || !Finite(value.value) then Rejected(NotANumber)
          else if !InRange(metric, value.value) then Rejected(OutOfRange)
          else Accepted(Telemetry(fields[0], ts.value, metric, value.value, TrimSpace(fields[4]), ""))
  }

  function BodyFields(lib: Lib, deviceId: string, ts: int, metric: string, value: Float, unit: string): (fields: seq<string>)
    ensures |fields| == 5
  {
    [deviceId, lib.formatTime(ts), metric, lib.formatPlain(value), unit]
  }

  function WithChecksum(body: string): string {
    body + [SEPARATOR] + ChecksumHex(body)
  }

  function BuildMessage(lib: Lib, deviceId: string, ts: int, metric: string, value: Float, unit: string): string {
    WithChecksum(Join(BodyFields(lib, deviceId, ts, metric, value, unit)))
  }

  // ---------------------------------------------------------------- build, then parse

  /** A line splits back into its body and its checksum. */
  lemma SplitChecksumOf(body: string, checksum: string)
    requires Plain(checksum) && checksum != ""
    ensures SplitChecksum(body + [SEPARATOR] + checksum) ==
      if HexDecodes(Upper(checksum)) then Body(body, checksum) else NoBody(MalformedChecksum)
    ensures TrimSpace(body + [SEPARATOR] + checksum) != ""
  {
    var raw := body + [SEPARATOR] + checksum;
    LastSeparatorFound(body, checksum);
    assert raw[..|body|] == body && raw[|body| + 1..] == checksum;
    assert raw[|body|] == SEPARATOR;
    TrimKeeps(raw, SEPARATOR);
  }

  function UncheckedBody(lib: Lib, body: string, checksum: string, now: int): Unchecked {
    if |body| + 1 + |checksum| > MAX_LINE then Invalid(LineTooLong)
    else if !HexDecodes(Upper(checksum)) then Invalid(MalformedChecksum)
    else
      match ParseBody(lib, Split(body), now)
      case Rejected(reason) => Invalid(reason)
      case Accepted(t) => Fields(t, body, checksum)
  }

  lemma ParseUncheckedOf(lib: Lib, body: string, checksum: string, now: int)
    requires Plain(checksum) && checksum != ""
    ensures ParseUnchecked(lib, body + [SEPARATOR] + checksum, now) == UncheckedBody(lib, body, checksum, now)
  {
    SplitChecksumOf(body, checksum);
  }

  /** A line with its own checksum is accepted exactly when it is short enough and its fields are. */
  lemma ParseWithChecksum(lib: Lib, body: string, now: int)
    ensures |WithChecksum(body)| == |body| + 5
    ensures
      var parsed, fields := ParseMessage(lib, WithChecksum(body), now), ParseBody(lib, Split(body), now);
      && (parsed.Accepted? <==> |body| + 5 <= MAX_LINE && fields.Accepted?)
      && (parsed.Accepted? ==> parsed.telemetry == fields.telemetry.(checksum := ChecksumHex(body)))
  {
    var checksum := ChecksumHex(body);
    ChecksumText(body);
    ParseUncheckedOf(lib, body, checksum, now);
  }

  /** The conditions under which a built line is accepted. */
  predicate Buildable(lib: Lib, deviceId: string, ts: int, metric: string, value: Float, unit: string, now: int) {
    && ValidParts(deviceId, ts, metric, value, now)
    && Plain(metric) && Plain(unit)
    && |BuildMessage(lib, deviceId, ts, metric, value, unit)| <= MAX_LINE
  }

  /** What is left of the parts after a round trip: a time in whole seconds, trimmed texts. */
  function Normalized(deviceId: string, ts: int, metric: string, value: Float, unit: string, checksum: string): Telemetry {
    Telemetry(deviceId, WholeSecond(ts), TrimSpace(metric), value, TrimSpace(unit), checksum)
  }

  predicate ValidParts(deviceId: string, ts: int, metric: string, value: Float, now: int) {
    && ValidDeviceId(deviceId)
    && InTimeWindow(WholeSecond(ts), now)
    && KnownMetric(TrimSpace(metric)) && InRange(TrimSpace(metric), value)
  }

  lemma ParseBuiltFields(lib: Lib, deviceId: string, ts: int, metric: string, value: Float, unit: string, now: int)
    requires lib.Lawful() && lib.isDouble(value) && YEAR_0 <= ts < YEAR_10000
    ensures
      var parsed := ParseBody(lib, BodyFields(lib, deviceId, ts, metric, value, unit), now);
      && (parsed.Accepted? <==> ValidParts(deviceId, ts, metric, value, now))
      && (parsed.Accepted? ==> parsed.telemetry == Normalized(deviceId, ts, metric, value, unit, ""))
  {
    GraphicIsTrimmed(lib.formatPlain(value));
  }

  lemma BuiltFieldsArePlain(lib: Lib, deviceId: string, ts: int, metric: string, value: Float, unit: string)
    requires lib.Lawful() && lib.isDouble(value) && YEAR_0 <= ts < YEAR_10000
    ensures (forall p :: p in BodyFields(lib, deviceId, ts, metric, value, unit) ==> Plain(p)) <==>
            Plain(deviceId) && Plain(metric) && Plain(unit)
  {
    var fields := BodyFields(lib, deviceId, ts, metric, value, unit);
    assert fields[0] in fields && fields[2] in fields && fields[4] in fields;
    assert !Graphic(SEPARATOR);
  }

  /** A built line is accepted exactly when its parts are valid, and then yields the same telemetry:
      the time cut to whole seconds, metric and unit trimmed, the checksum in upper case. */
  lemma BuildThenParse(lib: Lib, deviceId: string, ts: int, metric: string, value: Float, unit: string, now: int)
    requires lib.Lawful() && lib.isDouble(value) && YEAR_0 <= ts < YEAR_10000
    ensures
      var body := Join(BodyFields(lib, deviceId, ts, metric, value, unit));
      var parsed := ParseMessage(lib, BuildMessage(lib, deviceId, ts, metric, value, unit), now);
      && (parsed.Accepted? <==> Buildable(lib, deviceId, ts, metric, value, unit, now))
      && (parsed.Accepted? ==> parsed.telemetry == Normalized(deviceId, ts, metric, value, unit, ChecksumHex(body)))
  {
    var fields := BodyFields(lib, deviceId, ts, metric, value, unit);
    ParseWithChecksum(lib, Join(fields), now);
    JoinedCount(fields);
    BuiltFieldsArePlain(lib, deviceId, ts, metric, value, unit);
    ParseBuiltFields(lib, deviceId, ts, metric, value, unit, now);
    if Plain(deviceId) && Plain(metric) && Plain(unit) {
      SplitJoin(fields);
    } else {
      assert !DeviceChar(SEPARATOR);
    }
  }

  /** The identity, for a time in whole seconds and trimmed texts. */
  lemma BuildThenParseIsIdentity(lib: Lib, t: Telemetry, now: int)
    requires lib.Lawful() && lib.isDouble(t.value) && YEAR_0 <= t.ts < YEAR_10000
    requires Buildable(lib, t.deviceId, t.ts, t.metric, t.value, t.unit, now)
    ensures
      var parsed := ParseMessage(lib, BuildMessage(lib, t.deviceId, t.ts, t.metric, t.value, t.unit), now);
      && parsed.Accepted?
      && (parsed.telemetry.(checksum := t.checksum) == t <==>
            WholeSecond(t.ts) == t.ts && TrimSpace(t.metric) == t.metric && TrimSpace(t.unit) == t.unit)
  {
    BuildThenParse(lib, t.deviceId, t.ts, t.metric, t.value, t.unit, now);
  }

  /** The letter case of the checksum never matters. */
  lemma ChecksumCaseIsIrrelevant(lib: Lib, body: string, checksum: string, other: string, now: int)
    requires Upper(checksum) == Upper(other) && Plain(checksum)
    ensures ParseMessage(lib, body + [SEPARATOR] + checksum, now) == ParseMessage(lib, body + [SEPARATOR] + other, now)
  {
    SameUnchecked(lib, body, checksum, other, now);
  }

  lemma SameUnchecked(lib: Lib, body: string, checksum: string, other: string, now: int)
    requires Upper(checksum) == Upper(other) && Plain(checksum)
    ensures
      var u, v := ParseUnchecked(lib, body + [SEPARATOR] + checksum, now), ParseUnchecked(lib, body + [SEPARATOR] + other, now);
      u == v || (u.Fields? && v == u.(checksum := other) && u.checksum == checksum)
  {
    UpperIsPlain(checksum, other);
    if checksum == "" {
      assert other == "";
    } else {
      ParseUncheckedOf(lib, body, checksum, now);
      ParseUncheckedOf(lib, body, other, now);
    }
  }

  // ---------------------------------------------------------------- what an accepted line looks like

  /** The fields are well formed and carry the telemetry. */
  ghost predicate FieldsCarry(lib: Lib, fields: seq<string>, now: int, t: Telemetry) {
    && |fields| == 5 && (forall p :: p in fields ==> Plain(p))
    && t.deviceId == fields[0] && ValidDeviceId(t.deviceId)
    && lib.parseTime(fields[1]) == Some(t.ts) && InTimeWindow(t.ts, now)
    && t.metric == TrimSpace(fields[2]) && KnownMetric(t.metric)
    && lib.parseFloat(TrimSpace(fields[3])) == Some(t.value) && InRange(t.metric, t.value)
    && t.unit == TrimSpace(fields[4])
  }

  /** The line is five well-formed fields and their checksum, in either letter case. */
  ghost predicate LineCarries(lib: Lib, raw: string, now: int, t: Telemetry, fields: seq<string>, checksum: string) {
    && FieldsCarry(lib, fields, now, t)
    && raw == Join(fields) + [SEPARATOR] + checksum && |raw| <= MAX_LINE
    && Upper(checksum) == t.checksum == ChecksumHex(Join(fields))
  }

  /** ParseMessage accepts exactly the lines the protocol describes, with what they carry. */
  lemma AcceptsExactly(lib: Lib, raw: string, now: int, t: Telemetry)
    ensures ParseMessage(lib, raw, now) == Accepted(t) <==>
            exists fields, checksum :: LineCarries(lib, raw, now, t, fields, checksum)
  {
    if ParseMessage(lib, raw, now) == Accepted(t) {
      var fields, checksum := AcceptedLine(lib, raw, now);
    }
    if fields, checksum :| LineCarries(lib, raw, now, t, fields, checksum) {
      LineIsAccepted(lib, raw, now, t, fields, checksum);
    }
  }

  lemma AcceptedLine(lib: Lib, raw: string, now: int) returns (fields: seq<string>, checksum: string)
    requires ParseMessage(lib, raw, now).Accepted?
    ensures LineCarries(lib, raw, now, ParseMessage(lib, raw, now).telemetry, fields, checksum)
  {
    var body;
    body, checksum := AcceptedBody(lib, raw, now);
    fields := Split(body);
    JoinSplit(body);
    AcceptedFields(lib, fields, now);
  }

  lemma CarriedFieldsParse(lib: Lib, fields: seq<string>, now: int, t: Telemetry)
    requires FieldsCarry(lib, fields, now, t)
    ensures ParseBody(lib, fields, now) == Accepted(t.(checksum := ""))
  {
  }

  lemma LineIsAccepted(lib: Lib, raw: string, now: int, t: Telemetry, fields: seq<string>, checksum: string)
    requires LineCarries(lib, raw, now, t, fields, checksum)
    ensures ParseMessage(lib, raw, now) == Accepted(t)
  {
    var body := Join(fields);
    SplitJoin(fields);
    CarriedFieldsParse(lib, fields, now, t);
    assert Plain(checksum) && checksum != "" && HexDecodes(Upper(checksum)) by {
      ChecksumText(body);
      UpperIsPlain(ChecksumHex(body), checksum);
    }
    ParseUncheckedOf(lib, body, checksum, now);
    assert ParseUnchecked(lib, raw, now) == Fields(t.(checksum := ""), body, checksum);
  }

  lemma AcceptedBody(lib: Lib, raw: string, now: int) returns (body: string, checksum: string)
    requires ParseMessage(lib, raw, now).Accepted?
    ensures raw == body + [SEPARATOR] + checksum && Plain(checksum)
    ensures Upper(checksum) == ChecksumHex(body)
    ensures
      var fields := ParseBody(lib, Split(body), now);
      fields.Accepted? && ParseMessage(lib, raw, now).telemetry == fields.telemetry.(checksum := ChecksumHex(body))
    ensures |raw| <= MAX_LINE
  {
    var u := ParseUnchecked(lib, raw, now);
    body, checksum := u.body, u.checksum;
  }

  lemma AcceptedFields(lib: Lib, fields: seq<string>, now: int)
    requires ParseBody(lib, fields, now).Accepted?
    ensures
      var t := ParseBody(lib, fields, now).telemetry;
      && |fields| == 5
      && t.deviceId == fields[0] && ValidDeviceId(t.deviceId)
      && lib.parseTime(fields[1]) == Some(t.ts) && InTimeWindow(t.ts, now)
      && t.metric == TrimSpace(fields[2]) && KnownMetric(t.metric)
      && lib.parseFloat(TrimSpace(fields[3])) == Some(t.value) && InRange(t.metric, t.value)
      && t.unit == TrimSpace(fields[4])
  {
  }

  /** No field of accepted telemetry holds a separator. */
  lemma AcceptedFieldsArePlain(lib: Lib, raw: string, now: int)
    requires ParseMessage(lib, raw, now).Accepted?
    ensures var t := ParseMessage(lib, raw, now).telemetry; Plain(t.deviceId) && Plain(t.metric) && Plain(t.unit)
  {
    var fields, checksum := AcceptedLine(lib, raw, now);
    assert Plain(fields[0]) && Plain(fields[2]) && Plain(fields[4]);
    TrimKeeps(fields[2], SEPARATOR);
    TrimKeeps(fields[4], SEPARATOR);
  }

  /** What was accepted can be built again, and then parses to itself: a parsed message is in normal form. */
  lemma AcceptedRebuilds(lib: Lib, raw: string, now: int)
    requires lib.Lawful() && ParseMessage(lib, raw, now).Accepted?
    ensures
      var t := ParseMessage(lib, raw, now).telemetry;
      var line := BuildMessage(lib, t.deviceId, t.ts, t.metric, t.value, t.unit);
      YEAR_0 <= t.ts < YEAR_10000 && WholeSecond(t.ts) == t.ts && |line| <= MAX_LINE ==>
        var again := ParseMessage(lib, line, now);
        again.Accepted? && again.telemetry.(checksum := t.checksum) == t
  {
    var t := ParseMessage(lib, raw, now).telemetry;
    var fields, checksum := AcceptedLine(lib, raw, now);
    AcceptedFieldsArePlain(lib, raw, now);
    TrimIsIdempotent(fields[2]);
    TrimIsIdempotent(fields[4]);
    if YEAR_0 <= t.ts < YEAR_10000 && WholeSecond(t.ts) == t.ts &&
       |BuildMessage(lib, t.deviceId, t.ts, t.metric, t.value, t.unit)| <= MAX_LINE {
      BuildThenParseIsIdentity(lib, t, now);
    }
  }

  lemma AcceptedValueIsFinite(lib: Lib, raw: string, now: int)
    requires ParseMessage(lib, raw, now).Accepted?
    ensures Finite(ParseMessage(lib, raw, now).telemetry.value)
  {
    var body, checksum := AcceptedBody(lib, raw, now);
    ParsedValueIsFinite(lib, Split(body), now);
  }

  lemma ParsedValueIsFinite(lib: Lib, fields: seq<string>, now: int)
    requires ParseBody(lib, fields, now).Accepted?
    ensures Finite(ParseBody(lib, fields, now).telemetry.value)
  {
  }

  // ---------------------------------------------------------------- the same line later

  /** What becomes later of what was accepted: only its time stamp can leave the window. */
  function StillAccepted(t: Telemetry, later: int): Parsed {
    if t.ts > later + 5 * MINUTE then Rejected(TimestampInFuture)
    else if t.ts < later - 30 * DAY then Rejected(TimestampTooOld)
    else Accepted(t)
  }

  /** A line that was accepted once carries the same telemetry at every time, and is accepted exactly while
      its time stamp is within the window. */
  lemma AcceptedAgain(lib: Lib, raw: string, now: int, later: int)
    requires ParseMessage(lib, raw, now).Accepted?
    ensures ParseMessage(lib, raw, later) == StillAccepted(ParseMessage(lib, raw, now).telemetry, later)
  {
    var body, checksum := AcceptedBody(lib, raw, now);
    NonEmptyUpper(checksum, body);
    FieldsAgain(lib, Split(body), now, later);
    ParseUncheckedOf(lib, body, checksum, later);
    ParsedAs(lib, raw, later, body, checksum, ParseBody(lib, Split(body), later));
  }

  lemma ParsedAs(lib: Lib, raw: string, now: int, body: string, checksum: string, parsed: Parsed)
    requires ParseUnchecked(lib, raw, now) == UncheckedBody(lib, body, checksum, now)
    requires parsed == ParseBody(lib, Split(body), now)
    requires |body| + 1 + |checksum| <= MAX_LINE && HexDecodes(Upper(checksum)) && Upper(checksum) == ChecksumHex(body)
    ensures ParseMessage(lib, raw, now) ==
      if parsed.Accepted? then Accepted(parsed.telemetry.(checksum := ChecksumHex(body))) else parsed
  {
  }

  lemma NonEmptyUpper(checksum: string, body: string)
    requires Upper(checksum) == ChecksumHex(body)
    ensures checksum != "" && HexDecodes(Upper(checksum))
  {
    ChecksumText(body);
  }

  lemma FieldsAgain(lib: Lib, fields: seq<string>, now: int, later: int)
    requires ParseBody(lib, fields, now).Accepted?
    ensures ParseBody(lib, fields, later) == StillAccepted(ParseBody(lib, fields, now).telemetry, later)
  {
  }

  // ---------------------------------------------------------------- corrupted lines

  /** An accepted line whose body is altered within sixteen consecutive bits, its checksum kept, is
      never accepted, whenever it arrives. */
  lemma AlteredLineIsRejected(lib: Lib, body: string, altered: string, checksum: string, now: int, later: int)
    requires IsBytes(body) && IsBytes(altered) && Plain(checksum)
    requires ParseMessage(lib, body + [SEPARATOR] + checksum, now).Accepted?
    requires BurstApart(body, altered)
    ensures ParseMessage(lib, altered + [SEPARATOR] + checksum, later).Rejected?
  {
    ChecksumTells(body, altered);
    AcceptedChecksum(lib, body, checksum, now);
    if ParseMessage(lib, altered + [SEPARATOR] + checksum, later).Accepted? {
      AcceptedChecksum(lib, altered, checksum, later);
    }
  }

  /** So is an accepted line of whose body up to three bits are flipped, wherever they lie: a line is too
      short for such an error to go unnoticed. */
  lemma FewFlippedBitsAreRejected(lib: Lib, body: string, altered: string, checksum: string, now: int, later: int)
    requires Plain(checksum) && FewBitsApart(body, altered)
    requires ParseMessage(lib, body + [SEPARATOR] + checksum, now).Accepted?
    ensures ParseMessage(lib, altered + [SEPARATOR] + checksum, later).Rejected?
  {
    AcceptedIsShort(lib, body, checksum, now);
    FewBitsTell(body, altered);
    AcceptedChecksum(lib, body, checksum, now);
    if ParseMessage(lib, altered + [SEPARATOR] + checksum, later).Accepted? {
      AcceptedChecksum(lib, altered, checksum, later);
    }
  }

  lemma AcceptedIsShort(lib: Lib, body: string, checksum: string, now: int)
    requires ParseMessage(lib, body + [SEPARATOR] + checksum, now).Accepted?
    ensures |body| <= 4095
  {
    var found, text := AcceptedBody(lib, body + [SEPARATOR] + checksum, now);
  }

  lemma AcceptedChecksum(lib: Lib, body: string, checksum: string, now: int)
    requires Plain(checksum)
    requires ParseMessage(lib, body + [SEPARATOR] + checksum, now).Accepted?
    ensures Upper(checksum) == ChecksumHex(body)
  {
    var raw := body + [SEPARATOR] + checksum;
    var found, text := AcceptedBody(lib, raw, now);
    LastSeparatorFound(body, checksum);
    LastSeparatorFound(found, text);
    assert raw[..|body|] == body && raw[..|found|] == found;
    assert raw[|body| + 1..] == checksum && raw[|found| + 1..] == text;
  }
}
