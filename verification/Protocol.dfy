/** The line protocol in terms of characters and numbers: which lines are accepted, and with what. */
module Protocol {
  import opened Checksum
  import opened GoLib
  import opened Text
  import opened Trimming
  import opened Wire
  import Crc
  import CrcRegister
  import Gf2

  // ---------------------------------------------------------------- the checksum field

  predicate AnyHexDigit(c: char) {
    c in "0123456789ABCDEFabcdef"
  }

  /** Four hexadecimal digits, in either case, that read as the remainder of the body. */
  ghost predicate ReadsAsRemainder(body: string, text: string) {
    && |text| == 4 && (forall c :: c in text ==> AnyHexDigit(c))
    && exists r :: Gf2.Congruent(DividendOf(body), r) && Gf2.Short(r) && HexValue(text) == BinaryValue(r, 0, 16)
  }

  lemma HexDigitsAgree(c: char)
    ensures IsHexDigit(c) <==> AnyHexDigit(c)
  {
    var d := "0123456789ABCDEFabcdef";
    if IsHexDigit(c) {
      var i := if c <= '9' then c as int - '0' as int else if c <= 'F' then c as int - 'A' as int + 10 else c as int - 'a' as int + 16;
      assert d[i] == c;
    }
  }

  lemma DigitByValue(c: char, d: char)
    requires IsHexDigit(c) && IsHexDigit(d)
    ensures 0 <= HexDigitValue(c) < 16
    ensures HexDigitValue(c) == HexDigitValue(d) <==> UpperChar(c) == UpperChar(d)
  {
  }

  lemma DigitOrUpper(c: char)
    ensures IsHexDigit(c) <==> IsHexDigit(UpperChar(c))
  {
  }

  /** A number below 65536 has one spelling in four digits. */
  lemma FourDigitsAreUnique(a: int, b: int, c: int, d: int, p: int, q: int, r: int, s: int)
    requires 0 <= a < 16 && 0 <= b < 16 && 0 <= c < 16 && 0 <= d < 16
    requires 0 <= p < 16 && 0 <= q < 16 && 0 <= r < 16 && 0 <= s < 16
    ensures 4096 * a + 256 * b + 16 * c + d == 4096 * p + 256 * q + 16 * r + s <==> a == p && b == q && c == r && d == s
  {
  }

  predicate HexText(s: string) {
    |s| == 4 && IsHexDigit(s[0]) && IsHexDigit(s[1]) && IsHexDigit(s[2]) && IsHexDigit(s[3])
  }

  lemma HexTextExactly(s: string)
    ensures HexText(s) <==> |s| == 4 && forall c :: c in s ==> AnyHexDigit(c)
  {
    if |s| == 4 {
      HexDigitsAgree(s[0]);
      HexDigitsAgree(s[1]);
      HexDigitsAgree(s[2]);
      HexDigitsAgree(s[3]);
      assert s[0] in s && s[1] in s && s[2] in s && s[3] in s;
      assert forall c :: c in s ==> c == s[0] || c == s[1] || c == s[2] || c == s[3];
    }
  }

  lemma SameValueSameUpper(s: string, u: string)
    requires HexText(s) && HexText(u)
    ensures HexValue(s) == HexValue(u) <==> Upper(s) == Upper(u)
  {
    FourDigits(s);
    FourDigits(u);
    DigitByValue(s[0], u[0]);
    DigitByValue(s[1], u[1]);
    DigitByValue(s[2], u[2]);
    DigitByValue(s[3], u[3]);
    DigitByValue(u[0], u[0]);
    DigitByValue(u[1], u[1]);
    DigitByValue(u[2], u[2]);
    DigitByValue(u[3], u[3]);
    FourDigitsAreUnique(HexDigitValue(s[0]), HexDigitValue(s[1]), HexDigitValue(s[2]), HexDigitValue(s[3]),
                        HexDigitValue(u[0]), HexDigitValue(u[1]), HexDigitValue(u[2]), HexDigitValue(u[3]));
    SameUpper(s, u);
  }

  lemma SameUpper(s: string, u: string)
    requires |s| == |u| == 4
    ensures Upper(s) == Upper(u) <==>
      UpperChar(s[0]) == UpperChar(u[0]) && UpperChar(s[1]) == UpperChar(u[1]) &&
      UpperChar(s[2]) == UpperChar(u[2]) && UpperChar(s[3]) == UpperChar(u[3])
  {
    var a, b := Upper(s), Upper(u);
    if a == b {
      assert a[0] == b[0] && a[1] == b[1] && a[2] == b[2] && a[3] == b[3];
    }
  }

  lemma UpperIsHexText(s: string)
    requires |s| == 4
    ensures HexText(Upper(s)) <==> HexText(s)
  {
    DigitOrUpper(s[0]);
    DigitOrUpper(s[1]);
    DigitOrUpper(s[2]);
    DigitOrUpper(s[3]);
  }

  lemma ChecksumIsHexText(body: string)
    ensures HexText(ChecksumHex(body)) && Upper(ChecksumHex(body)) == ChecksumHex(body)
  {
    ChecksumText(body);
    var s := ChecksumHex(body);
    assert Upper(s)[0] in s && Upper(s)[1] in s && Upper(s)[2] in s && Upper(s)[3] in s;
  }

  /** A checksum field matches the body exactly when it reads as the remainder. */
  lemma MatchesByReading(body: string, text: string)
    ensures Upper(text) == ChecksumHex(body) <==> ReadsAsRemainder(body, text)
  {
    var s := ChecksumHex(body);
    ChecksumIsHexText(body);
    HexTextExactly(text);
    if |text| == 4 {
      UpperIsHexText(text);
    }
    if HexText(text) {
      SameValueSameUpper(text, s);
      RemainderReads(body, text);
    }
  }

  lemma RemainderReads(body: string, text: string)
    ensures
      HexValue(text) == HexValue(ChecksumHex(body)) <==>
      exists r :: Gf2.Congruent(DividendOf(body), r) && Gf2.Short(r) && HexValue(text) == BinaryValue(r, 0, 16)
  {
    var r := RemainderOf(body);
    ChecksumReadsRemainder(body, r);
    if q :| Gf2.Congruent(DividendOf(body), q) && Gf2.Short(q) && HexValue(text) == BinaryValue(q, 0, 16) {
      ChecksumReadsRemainder(body, q);
    }
  }

  lemma RemainderOf(body: string) returns (r: Gf2.Poly)
    ensures Gf2.Congruent(DividendOf(body), r) && Gf2.Short(r)
  {
    var bytes := BytesOf(body);
    r := CrcRegister.Reg(Crc.Sum(bytes));
    InitialIsAllOnes();
    assert DividendOf(body) == Crc.Dividend(bytes);
    Crc.FoldDivides(bytes);
    Gf2.CongruentSym(r, DividendOf(body));
  }

  // ---------------------------------------------------------------- the fields

  /** The ranges of the metrics. */
  predicate Measurable(metric: string, x: real) {
    || (metric == "temperature" && -60.0 <= x <= 120.0)
    || (metric == "humidity" && 0.0 <= x <= 100.0)
    || (metric == "pressure" && 800.0 <= x <= 1200.0)
    || (metric == "voltage" && 0.0 <= x <= 40.0)
    || (metric == "current" && 0.0 <= x <= 100.0)
    || (metric == "wind_speed" && 0.0 <= x <= 80.0)
  }

  /** Eight to thirty-two upper-case letters, digits and hyphens, by their codes. */
  predicate DeviceName(id: string) {
    8 <= |id| <= 32 && forall c :: c in id ==> 65 <= c as int <= 90 || 48 <= c as int <= 57 || c as int == 45
  }

  /** The text, without white space at either end, reads as the number. */
  ghost predicate ReadsAs(lib: Lib, s: string, v: Float) {
    exists text :: Leaves(s, text) && lib.parseFloat(text) == Some(v)
  }

  /** Five fields without a bar, read at time `now`, say t: the time is at most thirty days old and at
      most five minutes ahead. */
  ghost predicate Say(lib: Lib, fields: seq<string>, now: int, t: Telemetry) {
    && |fields| == 5 && (forall p :: p in fields ==> '|' !in p)
    && DeviceName(fields[0]) && t.deviceId == fields[0]
    && lib.parseTime(fields[1]) == Some(t.ts) && now - 2_592_000_000_000_000 <= t.ts <= now + 300_000_000_000
    && Leaves(fields[2], t.metric) && Leaves(fields[4], t.unit)
    && ReadsAs(lib, fields[3], t.value)
    && t.value.Fin? && Measurable(t.metric, if t.value.neg then -t.value.mag else t.value.mag)
  }

  function BodyOf(fields: seq<string>): string
    requires |fields| == 5
  {
    fields[0] + "|" + fields[1] + "|" + fields[2] + "|" + fields[3] + "|" + fields[4]
  }

  /** The line is five fields and their checksum, which t carries in upper case. */
  ghost predicate Line(lib: Lib, raw: string, now: int, t: Telemetry, fields: seq<string>, checksum: string) {
    && Say(lib, fields, now, t)
    && raw == BodyOf(fields) + "|" + checksum && |raw| <= 4096
    && ReadsAsRemainder(BodyOf(fields), checksum) && ReadsAsRemainder(BodyOf(fields), t.checksum)
    && forall c :: c in t.checksum ==> c in "0123456789ABCDEF"
  }

  lemma DeviceNames(id: string)
    ensures ValidDeviceId(id) <==> DeviceName(id)
  {
  }

  lemma Ranges(metric: string, v: Float)
    ensures KnownMetric(metric) && InRange(metric, v) <==>
      v.Fin? && Measurable(metric, if v.neg then -v.mag else v.mag)
  {
  }

  lemma ReadsTrimmed(lib: Lib, s: string, v: Float)
    ensures ReadsAs(lib, s, v) <==> lib.parseFloat(TrimSpace(s)) == Some(v)
  {
    TrimsExactly(s, TrimSpace(s));
    if text :| Leaves(s, text) && lib.parseFloat(text) == Some(v) {
      TrimsExactly(s, text);
    }
  }

  lemma WithoutBar(fields: seq<string>)
    ensures (forall p :: p in fields ==> Plain(p)) <==> forall p :: p in fields ==> '|' !in p
  {
  }

  /** The same, given whether metric, unit and value are what the texts hold. */
  ghost predicate SayGiven(lib: Lib, fields: seq<string>, now: int, t: Telemetry, metric: bool, unit: bool, value: bool) {
    && |fields| == 5 && (forall p :: p in fields ==> '|' !in p)
    && DeviceName(fields[0]) && t.deviceId == fields[0]
    && lib.parseTime(fields[1]) == Some(t.ts) && now - 2_592_000_000_000_000 <= t.ts <= now + 300_000_000_000
    && metric && unit && value
    && t.value.Fin? && Measurable(t.metric, if t.value.neg then -t.value.mag else t.value.mag)
  }

  lemma SaysGiven(lib: Lib, fields: seq<string>, now: int, t: Telemetry, metric: bool, unit: bool, value: bool)
    requires |fields| == 5
    requires metric == Leaves(fields[2], t.metric) && unit == Leaves(fields[4], t.unit) && value == ReadsAs(lib, fields[3], t.value)
    ensures Say(lib, fields, now, t) <==> SayGiven(lib, fields, now, t, metric, unit, value)
  {
  }

  lemma CarriesGiven(lib: Lib, fields: seq<string>, now: int, t: Telemetry, metric: bool, unit: bool, value: bool)
    requires |fields| == 5
    requires metric == (TrimSpace(fields[2]) == t.metric) && unit == (TrimSpace(fields[4]) == t.unit)
    requires value == (lib.parseFloat(TrimSpace(fields[3])) == Some(t.value))
    ensures FieldsCarry(lib, fields, now, t) <==> SayGiven(lib, fields, now, t, metric, unit, value)
  {
    WithoutBar(fields);
    DeviceNames(fields[0]);
    Ranges(t.metric, t.value);
  }

  lemma FieldsSay(lib: Lib, fields: seq<string>, now: int, t: Telemetry)
    ensures FieldsCarry(lib, fields, now, t) <==> Say(lib, fields, now, t)
  {
    if |fields| == 5 {
      var metric, unit := TrimSpace(fields[2]) == t.metric, TrimSpace(fields[4]) == t.unit;
      var value := lib.parseFloat(TrimSpace(fields[3])) == Some(t.value);
      TrimsExactly(fields[2], t.metric);
      TrimsExactly(fields[4], t.unit);
      ReadsTrimmed(lib, fields[3], t.value);
      CarriesGiven(lib, fields, now, t, metric, unit, value);
      SaysGiven(lib, fields, now, t, metric, unit, value);
    }
  }

  lemma JoinedIsBody(fields: seq<string>)
    requires |fields| == 5
    ensures Join(fields) == BodyOf(fields)
  {
    var last := [fields[4]];
    JoinMore(fields[3], last);
    JoinMore(fields[2], [fields[3]] + last);
    JoinMore(fields[1], [fields[2]] + ([fields[3]] + last));
    JoinMore(fields[0], [fields[1]] + ([fields[2]] + ([fields[3]] + last)));
    assert fields == [fields[0]] + ([fields[1]] + ([fields[2]] + ([fields[3]] + last)));
    Regroup(fields[0], fields[1], fields[2], fields[3], fields[4]);
  }

  lemma JoinMore(p: string, parts: seq<string>)
    requires parts != []
    ensures Join([p] + parts) == p + ("|" + Join(parts))
  {
    assert ([p] + parts)[1..] == parts;
  }

  lemma Regroup(a: string, b: string, c: string, d: string, e: string)
    ensures a + ("|" + (b + ("|" + (c + ("|" + (d + ("|" + e))))))) == a + "|" + b + "|" + c + "|" + d + "|" + e
  {
  }

  lemma ChecksumFields(body: string, text: string)
    ensures text == ChecksumHex(body) <==>
      ReadsAsRemainder(body, text) && forall c :: c in text ==> c in "0123456789ABCDEF"
  {
    MatchesByReading(body, text);
    ChecksumIsHexText(body);
    if text == ChecksumHex(body) {
      forall c | c in text ensures c in "0123456789ABCDEF" {
        UpperDigits(c);
      }
    }
    if (forall c :: c in text ==> c in "0123456789ABCDEF") {
      forall i | 0 <= i < |text| ensures Upper(text)[i] == text[i] {
        assert text[i] in text;
      }
      assert Upper(text) == text;
    }
  }

  lemma UpperDigits(c: char)
    requires IsHexDigit(c) && UpperChar(c) == c
    ensures c in "0123456789ABCDEF"
  {
    var i := if c <= '9' then c as int - '0' as int else c as int - 'A' as int + 10;
    assert "0123456789ABCDEF"[i] == c;
  }

  lemma LineSays(lib: Lib, raw: string, now: int, t: Telemetry, fields: seq<string>, checksum: string)
    ensures LineCarries(lib, raw, now, t, fields, checksum) <==> Line(lib, raw, now, t, fields, checksum)
  {
    FieldsSay(lib, fields, now, t);
    if |fields| == 5 {
      JoinedIsBody(fields);
      MatchesByReading(BodyOf(fields), checksum);
      ChecksumFields(BodyOf(fields), t.checksum);
    }
  }

  /** A line is accepted, with t, exactly when it says t. */
  lemma AcceptsByTheBook(lib: Lib, raw: string, now: int, t: Telemetry)
    ensures ParseMessage(lib, raw, now) == Accepted(t) <==>
            exists fields, checksum :: Line(lib, raw, now, t, fields, checksum)
  {
    AcceptsExactly(lib, raw, now, t);
    if fields, checksum :| LineCarries(lib, raw, now, t, fields, checksum) {
      LineSays(lib, raw, now, t, fields, checksum);
    }
    if fields, checksum :| Line(lib, raw, now, t, fields, checksum) {
      LineSays(lib, raw, now, t, fields, checksum);
    }
  }
}
