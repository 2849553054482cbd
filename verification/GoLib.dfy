/** The library code the router calls and this model does not open: number and time texts, glob
    matching, case folding, hashing. Each is a parameter; `Lawful` states what is used of them. */
module GoLib {
  import opened Text

  datatype Option<+T> = None | Some(value: T)

  /** An IEEE 754 double: a finite one is a sign and a magnitude, so that -0 and 0 are two values. */
  datatype Float = NaN | Inf(neg: bool) | Fin(neg: bool, mag: real)

  predicate Finite(f: Float) {
    f.Fin?
  }

  function Number(f: Float): real
    requires Finite(f)
  {
    if f.neg then -f.mag else f.mag
  }

  /** The comparison a < b of doubles; false when an operand is NaN. */
  predicate FloatLess(a: Float, b: Float) {
    match (a, b)
    case (NaN, _) => false
    case (_, NaN) => false
    case (Inf(m), Inf(n)) => m && !n
    case (Inf(m), Fin(_, _)) => m
    case (Fin(_, _), Inf(n)) => !n
    case (Fin(_, _), Fin(_, _)) => Number(a) < Number(b)
  }

  /** The comparison a == b of doubles: NaN differs from itself, and -0 equals 0. */
  predicate FloatEq(a: Float, b: Float) {
    match (a, b)
    case (NaN, _) => false
    case (_, NaN) => false
    case (Fin(_, _), Fin(_, _)) => Number(a) == Number(b)
    case _ => a == b
  }

  predicate FloatLessEq(a: Float, b: Float) {
    FloatLess(a, b) || FloatEq(a, b)
  }

  const TWO_63 := 0x8000_0000_0000_0000
  const TWO_64 := 0x1_0000_0000_0000_0000

  /** A number as a signed 64-bit word holds it. */
  function Wrap64(n: int): int {
    (n + TWO_63) % TWO_64 - TWO_63
  }

  // Instants are nanoseconds since 1970.
  const SECOND := 1_000_000_000
  const MINUTE := 60 * SECOND
  const DAY := 24 * 60 * MINUTE

  /** The instants with a four-digit year, the ones RFC 3339 can write. */
  const YEAR_0 := -62_167_219_200 * SECOND
  const YEAR_10000 := 253_402_300_800 * SECOND

  function WholeSecond(t: int): int {
    t - t % SECOND
  }

  datatype Lib = Lib(
    isDouble: Float -> bool,                          // the values a double can hold
    parseFloat: string -> Option<Float>,              // strconv.ParseFloat(_, 64)
    formatPlain: Float -> string,                     // strconv.FormatFloat(_, 'f', -1, 64)
    formatShort: Float -> string,                     // strconv.FormatFloat(_, 'g', -1, 64)
    subtract: (Float, Float) -> Float,                // rounded subtraction
    parseTime: string -> Option<int>,                 // time.Parse(time.RFC3339, _)
    formatTime: int -> string,                        // Time.Format(time.RFC3339)
    pathMatch: (string, string) -> Option<bool>,      // path.Match, None for a malformed pattern
    equalFold: (string, string) -> bool,              // strings.EqualFold
    digest: string -> string)                         // the first 32 hex digits of SHA-256
  {
    ghost predicate Lawful() {
      && (forall f: Float :: isDouble(f) ==>
            parseFloat(formatPlain(f)) == Some(f) && forall c :: c in formatPlain(f) ==> Graphic(c))
      && (forall f: Float :: isDouble(f) ==>
            parseFloat(formatShort(f)) == Some(f) && Plain(formatShort(f)))
      && (forall s: string :: parseFloat(s).Some? ==> isDouble(parseFloat(s).value))
      && (forall t: int :: YEAR_0 <= t < YEAR_10000 ==>
            parseTime(formatTime(t)) == Some(WholeSecond(t)) && Plain(formatTime(t)))
    }
  }

  // ---------------------------------------------------------------- the laws can be met

  predicate Whole(f: Float) {
    f.Fin? && f.mag >= 0.0 && f.mag == f.mag.Floor as real
  }

  function WholeText(f: Float): string {
    if Whole(f) then (if f.neg then "-" else "") + Decimal(f.mag.Floor) else ""
  }

  function ReadWhole(s: string): Option<Float> {
    if s == "" then None
    else
      var digits := if s[0] == '-' then s[1..] else s;
      if DecimalValue(digits) < 0 then None else Some(Fin(s[0] == '-', DecimalValue(digits) as real))
  }

  lemma WholeRoundTrip(f: Float)
    requires Whole(f)
    ensures ReadWhole(WholeText(f)) == Some(f)
    ensures forall c :: c in WholeText(f) ==> Graphic(c)
  {
    var n: nat := f.mag.Floor;
    DecimalReads(n);
    if f.neg {
      assert WholeText(f) == "-" + Decimal(n) && WholeText(f)[1..] == Decimal(n);
    } else {
      assert WholeText(f) == Decimal(n) && Decimal(n)[0] in Decimal(n);
    }
  }

  /** The laws do not contradict one another: here they hold of whole numbers and of times in seconds. */
  lemma LawfulLibraryExists()
    ensures exists lib: Lib :: lib.Lawful()
  {
    var lib := Lib(
      f => Whole(f), s => ReadWhole(s), f => WholeText(f), f => WholeText(f), (a, b) => a,
      (s: string) => if s == "" then None else Some(IntValue(s)), t => Itoa(WholeSecond(t)),
      (p, s) => None, (a, b) => a == b, s => s);
    forall f | lib.isDouble(f)
      ensures lib.parseFloat(WholeText(f)) == Some(f) && Plain(WholeText(f)) && forall c :: c in WholeText(f) ==> Graphic(c)
    {
      WholeRoundTrip(f);
    }
    forall t: int ensures lib.parseTime(lib.formatTime(t)) == Some(WholeSecond(t)) && Plain(lib.formatTime(t)) {
      ItoaReads(WholeSecond(t));
    }
    assert lib.Lawful();
  }
}
