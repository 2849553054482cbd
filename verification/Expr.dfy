/** Matcher expressions: abstract syntax, evaluation, and a parser that only parses. */
module Expr {
  import opened GoLib
  import opened Text

  // ---------------------------------------------------------------- meaning

  datatype Field = Metric | Device | Unit | Value

  datatype Op = Eq | Ne | Glob | Gt | Ge | Lt | Le

  datatype Expr =
    | Cmp(field: Field, op: Op, lit: string)
    | And(left: Expr, right: Expr)
    | Or(left: Expr, right: Expr)

  /** The event fields an expression can mention. */
  datatype Subject = Subject(metric: string, deviceId: string, unit: string, value: Float)

  function StringCompare(lib: Lib, op: Op, got: string, want: string): bool {
    match op
    case Eq => got == want
    case Ne => got != want
    case Glob => lib.pathMatch(want, got) == Some(true)
    case _ => false
  }

  const TOLERANCE := Fin(false, 0.000000001)

  function Negate(f: Float): Float {
    match f
    case NaN => NaN
    case Inf(neg) => Inf(!neg)
    case Fin(neg, mag) => Fin(!neg, mag)
  }

  function ValueCompare(lib: Lib, op: Op, got: Float, want: Float): bool {
    match op
    case Eq => FloatEq(got, want)
    case Ne => !FloatEq(got, want)
    case Glob =>
      var diff := lib.subtract(got, want);
      FloatLess(if FloatLess(diff, Fin(false, 0.0)) then Negate(diff) else diff, TOLERANCE)
    case Gt => FloatLess(want, got)
    case Ge => FloatLessEq(want, got)
    case Lt => FloatLess(got, want)
    case Le => FloatLessEq(got, want)
  }

  /** A value comparison needs a numeric literal. */
  predicate WellTyped(lib: Lib, field: Field, lit: string) {
    field == Value ==> lib.parseFloat(lit).Some?
  }

  function Compare(lib: Lib, field: Field, op: Op, lit: string, ev: Subject): bool
    requires WellTyped(lib, field, lit)
  {
    match field
    case Metric => StringCompare(lib, op, ev.metric, lit)
    case Device => StringCompare(lib, op, ev.deviceId, lit)
    case Unit => StringCompare(lib, op, ev.unit, lit)
    case Value => ValueCompare(lib, op, ev.value, lib.parseFloat(lit).value)
  }

  predicate Typed(lib: Lib, e: Expr) {
    match e
    case Cmp(field, _, lit) => WellTyped(lib, field, lit)
    case And(l, r) => Typed(lib, l) && Typed(lib, r)
    case Or(l, r) => Typed(lib, l) && Typed(lib, r)
  }

  function Eval(lib: Lib, e: Expr, ev: Subject): bool
    requires Typed(lib, e)
  {
    match e
    case Cmp(field, op, lit) => Compare(lib, field, op, lit, ev)
    case And(l, r) => Eval(lib, l, ev) && Eval(lib, r, ev)
    case Or(l, r) => Eval(lib, l, ev) || Eval(lib, r, ev)
  }

  // ---------------------------------------------------------------- lexical level

  /** unicode.IsSpace of a single byte. */
  predicate IsSpace(c: char) {
    AsciiSpace(c) || c as int == 0x85 || c as int == 0xA0
  }

  /** unicode.IsLetter, unicode.IsDigit or an underscore, of a single byte. */
  predicate IsWord(c: char) {
    || 'a' <= c <= 'z' || 'A' <= c <= 'Z' || '0' <= c <= '9' || c == '_'
    || c as int == 0xAA || c as int == 0xB5 || c as int == 0xBA
    || 0xC0 <= c as int <= 0xD6 || 0xD8 <= c as int <= 0xF6 || 0xF8 <= c as int <= 0xFF
  }

  function SkipSpace(s: string, pos: nat): (end: nat)
    requires pos <= |s|
    ensures pos <= end <= |s|
    decreases |s| - pos
  {
    if pos < |s| && IsSpace(s[pos]) then SkipSpace(s, pos + 1) else pos
  }

  function WordEnd(s: string, pos: nat): (end: nat)
    requires pos <= |s|
    ensures pos <= end <= |s|
    decreases |s| - pos
  {
    if pos < |s| && IsWord(s[pos]) then WordEnd(s, pos + 1) else pos
  }

  /** The end of an unquoted literal: white space or a closing parenthesis stops it. */
  function BareEnd(s: string, pos: nat): (end: nat)
    requires pos <= |s|
    ensures pos <= end <= |s|
    decreases |s| - pos
  {
    if pos < |s| && !IsSpace(s[pos]) && s[pos] != ')' then BareEnd(s, pos + 1) else pos
  }

  /** The next closing quote, |s| when there is none. */
  function QuoteEnd(s: string, pos: nat, quote: char): (end: nat)
    requires pos <= |s|
    ensures pos <= end <= |s|
    decreases |s| - pos
  {
    if pos < |s| && s[pos] != quote then QuoteEnd(s, pos + 1, quote) else pos
  }

  function LowerChar(c: char): char {
    if 'A' <= c <= 'Z' then c + 32 as char else c
  }

  /** strings.EqualFold against a lower-case ASCII keyword of the same length. */
  predicate FoldsTo(s: string, kw: string) {
    |s| == |kw| && forall i :: 0 <= i < |s| ==> LowerChar(s[i]) == kw[i]
  }

  /** A keyword stands at pos and no word character follows it. */
  predicate KeywordAt(s: string, pos: nat, kw: string)
    requires pos <= |s|
  {
    && pos + |kw| <= |s|
    && FoldsTo(s[pos..pos + |kw|], kw)
    && (pos + |kw| == |s| || !IsWord(s[pos + |kw|]))
  }

  /** Where a keyword found after white space leaves the cursor. */
  function AfterKeyword(s: string, pos: nat, kw: string): (r: Option<nat>)
    requires pos <= |s|
    ensures r.Some? ==> pos + |kw| <= r.value <= |s|
  {
    var p := SkipSpace(s, pos);
    if KeywordAt(s, p, kw) then Some(SkipSpace(s, p + |kw|)) else None
  }

  // ---------------------------------------------------------------- parsing

  datatype Problem = UnexpectedEnd | MissingParen | NoField | NoOperator | NoLiteral | Unterminated | NotNumeric | UnknownField

  datatype Result<T> = Ok(value: T, pos: nat) | Err(problem: Problem)

  const OR := "or"
  const AND := "and"

  function FieldOf(name: string): Option<Field> {
    if name == "metric" then Some(Metric)
    else if name == "device" then Some(Device)
    else if name == "unit" then Some(Unit)
    else if name == "value" then Some(Value)
    else None
  }

  function ParseOp(s: string, pos: nat): (r: Result<Op>)
    requires pos <= |s|
    ensures r.Ok? ==> pos < r.pos <= |s|
  {
    var two := if pos + 2 <= |s| then s[pos..pos + 2] else "";
    if two == "==" then Ok(Eq, pos + 2)
    else if two == "!=" then Ok(Ne, pos + 2)
    else if two == ">=" then Ok(Ge, pos + 2)
    else if two == "<=" then Ok(Le, pos + 2)
    else if pos == |s| then Err(NoOperator)
    else
      match s[pos]
      case '~' => Ok(Glob, pos + 1)
      case '=' => Ok(Eq, pos + 1)
      case '!' => Ok(Ne, pos + 1)
      case '>' => Ok(Gt, pos + 1)
      case '<' => Ok(Lt, pos + 1)
      case _ => Err(NoOperator)
  }

  predicate IsQuote(c: char) {
    c == '"' || c == '\''
  }

  function ParseLiteral(s: string, pos: nat): (r: Result<string>)
    requires pos <= |s|
    ensures r.Ok? ==> pos < r.pos <= |s|
  {
    var p := SkipSpace(s, pos);
    if p < |s| && IsQuote(s[p]) then
      var end := QuoteEnd(s, p + 1, s[p]);
      if end == |s| then Err(Unterminated) else Ok(s[p + 1..end], end + 1)
    else
      var end := BareEnd(s, p);
      if end == p then Err(NoLiteral) else Ok(s[p..end], end)
  }

  function ParseCmp(lib: Lib, s: string, pos: nat): (r: Result<Expr>)
    requires pos <= |s|
    ensures r.Ok? ==> pos < r.pos <= |s| && Typed(lib, r.value)
  {
    var start := SkipSpace(s, pos);
    var end := WordEnd(s, start);
    if end == start then Err(NoField)
    else
      match ParseOp(s, SkipSpace(s, end))
      case Err(problem) => Err(problem)
      case Ok(op, p) =>
        match ParseLiteral(s, SkipSpace(s, p))
        case Err(problem) => Err(problem)
        case Ok(lit, q) =>
          var field := FieldOf(s[start..end]);
          if field.None? then Err(UnknownField)
          else if !WellTyped(lib, field.value, lit) then Err(NotNumeric)
          else Ok(Cmp(field.value, op, lit), q)
  }

  function ParseAtom(lib: Lib, s: string, pos: nat): (r: Result<Expr>)
    requires pos <= |s|
    ensures r.Ok? ==> pos < r.pos <= |s| && Typed(lib, r.value)
    decreases |s| - pos, 0
  {
    var p := SkipSpace(s, pos);
    if p == |s| then Err(UnexpectedEnd)
    else if s[p] == '(' then
      match ParseOr(lib, s, p + 1)
      case Err(problem) => Err(problem)
      case Ok(e, q) =>
        var close := SkipSpace(s, q);
        if close == |s| || s[close] != ')' then Err(MissingParen) else Ok(e, close + 1)
    else ParseCmp(lib, s, p)
  }

  function ParseAnd(lib: Lib, s: string, pos: nat): (r: Result<Expr>)
    requires pos <= |s|
    ensures r.Ok? ==> pos < r.pos <= |s| && Typed(lib, r.value)
    decreases |s| - pos, 1
  {
    match ParseAtom(lib, s, pos)
    case Err(problem) => Err(problem)
    case Ok(left, p) => AndTail(lib, s, left, p)
  }

  /** The loop of parseAnd, with what it has parsed so far. */
  function AndTail(lib: Lib, s: string, left: Expr, pos: nat): (r: Result<Expr>)
    requires pos <= |s| && Typed(lib, left)
    ensures r.Ok? ==> pos <= r.pos <= |s| && Typed(lib, r.value)
    decreases |s| - pos, 0
  {
    match AfterKeyword(s, pos, AND)
    case None => Ok(left, SkipSpace(s, pos))
    case Some(p) =>
      match ParseAtom(lib, s, p)
      case Err(problem) => Err(problem)
      case Ok(right, q) => AndTail(lib, s, And(left, right), q)
  }

  function ParseOr(lib: Lib, s: string, pos: nat): (r: Result<Expr>)
    requires pos <= |s|
    ensures r.Ok? ==> pos < r.pos <= |s| && Typed(lib, r.value)
    decreases |s| - pos, 2
  {
    match ParseAnd(lib, s, pos)
    case Err(problem) => Err(problem)
    case Ok(left, p) => OrTail(lib, s, left, p)
  }

  /** The loop of parseOr. */
  function OrTail(lib: Lib, s: string, left: Expr, pos: nat): (r: Result<Expr>)
    requires pos <= |s| && Typed(lib, left)
    ensures r.Ok? ==> pos <= r.pos <= |s| && Typed(lib, r.value)
    decreases |s| - pos, 0
  {
    match AfterKeyword(s, pos, OR)
    case None => Ok(left, SkipSpace(s, pos))
    case Some(p) =>
      match ParseAnd(lib, s, p)
      case Err(problem) => Err(problem)
      case Ok(right, q) => OrTail(lib, s, Or(left, right), q)
  }

  /** The whole of a trimmed expression. */
  function Parse(lib: Lib, s: string): (r: Option<Expr>)
    ensures r.Some? ==> Typed(lib, r.value)
  {
    match ParseOr(lib, s, 0)
    case Err(_) => None
    case Ok(e, p) => if SkipSpace(s, p) == |s| then Some(e) else None
  }

  /** Parse, then evaluate: an empty expression matches, a malformed one does not. */
  function Matches(lib: Lib, expr: string, ev: Subject): bool {
    var s := TrimSpace(expr);
    if s == "" then true
    else
      match Parse(lib, s)
      case None => false
      case Some(e) => Eval(lib, e, ev)
  }
}
