/** The matcher as it runs: one pass that moves a cursor and evaluates while it parses. */
module ExprMachine {
  import opened Expr
  import opened ExprDecision
  import opened GoLib
  import opened Text

  datatype Outcome = Val(holds: bool) | Fail(problem: Problem)

  /** The pass agrees with parsing first and evaluating afterwards. */
  ghost predicate Agrees(lib: Lib, ev: Subject, spec: Result<Expr>, out: Outcome, pos: nat)
    requires spec.Ok? ==> Typed(lib, spec.value)
  {
    match spec
    case Err(problem) => out == Fail(problem)
    case Ok(e, end) => out == Val(Eval(lib, e, ev)) && pos == end
  }

  class ExprParser {
    const lib: Lib
    const s: string
    const ev: Subject
    var pos: nat

    constructor (lib: Lib, s: string, ev: Subject)
      ensures this.lib == lib && this.s == s && this.ev == ev && pos == 0
    {
      this.lib, this.s, this.ev, this.pos := lib, s, ev, 0;
    }

    method SkipSpaces()
      requires pos <= |s|
      modifies this
      ensures pos == SkipSpace(s, old(pos))
    {
      while pos < |s| && IsSpace(s[pos])
        invariant pos <= |s|
        invariant SkipSpace(s, pos) == SkipSpace(s, old(pos))
      {
        pos := pos + 1;
      }
    }

    method PeekKeyword(kw: string) returns (found: bool)
      requires pos <= |s|
      modifies this
      ensures pos == SkipSpace(s, old(pos)) && found == KeywordAt(s, pos, kw)
    {
      SkipSpaces();
      if pos + |kw| > |s| {
        return false;
      }
      if FoldsTo(s[pos..pos + |kw|], kw) {
        var end := pos + |kw|;
        return end == |s| || !IsWord(s[end]);
      }
      return false;
    }

    method ConsumeKeyword(kw: string) returns (found: bool)
      requires pos <= |s|
      modifies this
      ensures AfterKeyword(s, old(pos), kw) == if found then Some(pos) else None
      ensures !found ==> pos == SkipSpace(s, old(pos))
    {
      found := PeekKeyword(kw);
      if found {
        pos := pos + |kw|;
        SkipSpaces();
      }
    }

    method RunOr() returns (out: Outcome)
      requires pos <= |s|
      modifies this
      ensures Agrees(lib, ev, ParseOr(lib, s, old(pos)), out, pos)
      ensures old(pos) <= pos <= |s|
      decreases |s| - pos, 3
    {
      out := RunAnd();
      if out.Val? {
        out := OrLoop(ParseAnd(lib, s, old(pos)).value, out.holds);
      }
    }

    /** The loop of parseOr: `left` is the value of what has been read, `parsed`. */
    method OrLoop(ghost parsed: Expr, left: bool) returns (out: Outcome)
      requires pos <= |s| && Typed(lib, parsed) && left == Eval(lib, parsed, ev)
      modifies this
      ensures Agrees(lib, ev, OrTail(lib, s, parsed, old(pos)), out, pos)
      ensures old(pos) <= pos <= |s|
      decreases |s| - pos, 2
    {
      var value := left;
      ghost var whole := parsed;
      while true
        invariant old(pos) <= pos <= |s|
        invariant Typed(lib, whole) && value == Eval(lib, whole, ev)
        invariant OrTail(lib, s, parsed, old(pos)) == OrTail(lib, s, whole, pos)
        decreases |s| - pos
      {
        var more := ConsumeKeyword(OR);
        if !more {
          return Val(value);
        }
        ghost var here := pos;
        var right := RunAnd();
        if right.Fail? {
          return right;
        }
        value := value || right.holds;
        whole := Or(whole, ParseAnd(lib, s, here).value);
      }
    }

    method RunAnd() returns (out: Outcome)
      requires pos <= |s|
      modifies this
      ensures Agrees(lib, ev, ParseAnd(lib, s, old(pos)), out, pos)
      ensures old(pos) <= pos <= |s|
      decreases |s| - pos, 1
    {
      out := RunAtom();
      if out.Val? {
        out := AndLoop(ParseAtom(lib, s, old(pos)).value, out.holds);
      }
    }

    /** The loop of parseAnd: `left` is the value of what has been read, `parsed`. */
    method AndLoop(ghost parsed: Expr, left: bool) returns (out: Outcome)
      requires pos <= |s| && Typed(lib, parsed) && left == Eval(lib, parsed, ev)
      modifies this
      ensures Agrees(lib, ev, AndTail(lib, s, parsed, old(pos)), out, pos)
      ensures old(pos) <= pos <= |s|
      decreases |s| - pos, 0
    {
      var value := left;
      ghost var whole := parsed;
      while true
        invariant old(pos) <= pos <= |s|
        invariant Typed(lib, whole) && value == Eval(lib, whole, ev)
        invariant AndTail(lib, s, parsed, old(pos)) == AndTail(lib, s, whole, pos)
        decreases |s| - pos
      {
        var more := ConsumeKeyword(AND);
        if !more {
          return Val(value);
        }
        ghost var here := pos;
        var right := RunAtom();
        if right.Fail? {
          return right;
        }
        value := value && right.holds;
        whole := And(whole, ParseAtom(lib, s, here).value);
      }
    }

    method RunAtom() returns (out: Outcome)
      requires pos <= |s|
      modifies this
      ensures Agrees(lib, ev, ParseAtom(lib, s, old(pos)), out, pos)
      ensures old(pos) <= pos <= |s|
      decreases |s| - pos, 0
    {
      SkipSpaces();
      if pos == |s| {
        return Fail(UnexpectedEnd);
      }
      if s[pos] == '(' {
        pos := pos + 1;
        out := RunOr();
        if out.Fail? {
          return;
        }
        SkipSpaces();
        if pos == |s| || s[pos] != ')' {
          return Fail(MissingParen);
        }
        pos := pos + 1;
        return;
      }
      out := RunCmp();
    }

    method RunCmp() returns (out: Outcome)
      requires pos <= |s|
      modifies this
      ensures Agrees(lib, ev, ParseCmp(lib, s, old(pos)), out, pos)
      ensures old(pos) <= pos <= |s|
    {
      var name := ReadIdent();
      if name.Err? {
        return Fail(name.problem);
      }
      SkipSpaces();
      var op := ReadOp();
      if op.Err? {
        return Fail(op.problem);
      }
      SkipSpaces();
      var lit := ReadLiteral();
      if lit.Err? {
        return Fail(lit.problem);
      }
      var field := FieldOf(name.value);
      if field.None? {
        return Fail(UnknownField);
      }
      if !WellTyped(lib, field.value, lit.value) {
        return Fail(NotNumeric);
      }
      return Val(Compare(lib, field.value, op.value, lit.value, ev));
    }

    method ReadIdent() returns (name: Result<string>)
      requires pos <= |s|
      modifies this
      ensures
        var start := SkipSpace(s, old(pos));
        && pos == WordEnd(s, start)
        && name == if pos == start then Err(NoField) else Ok(s[start..pos], pos)
    {
      SkipSpaces();
      var start := pos;
      while pos < |s| && IsWord(s[pos])
        invariant start <= pos <= |s|
        invariant WordEnd(s, pos) == WordEnd(s, start)
      {
        pos := pos + 1;
      }
      if start == pos {
        return Err(NoField);
      }
      return Ok(s[start..pos], pos);
    }

    method ReadOp() returns (op: Result<Op>)
      requires pos <= |s|
      modifies this
      ensures op == ParseOp(s, old(pos))
      ensures pos == if op.Ok? then op.pos else old(pos)
    {
      if pos + 2 <= |s| {
        var two := s[pos..pos + 2];
        if two == "==" || two == "!=" || two == ">=" || two == "<=" {
          pos := pos + 2;
          return Ok(if two == "==" then Eq else if two == "!=" then Ne else if two == ">=" then Ge else Le, pos);
        }
      }
      if pos < |s| {
        match s[pos] {
          case '~' => pos := pos + 1; return Ok(Glob, pos);
          case '=' => pos := pos + 1; return Ok(Eq, pos);
          case '!' => pos := pos + 1; return Ok(Ne, pos);
          case '>' => pos := pos + 1; return Ok(Gt, pos);
          case '<' => pos := pos + 1; return Ok(Lt, pos);
          case _ =>
        }
      }
      return Err(NoOperator);
    }

    method ReadLiteral() returns (lit: Result<string>)
      requires pos <= |s|
      modifies this
      ensures lit == ParseLiteral(s, old(pos))
      ensures old(pos) <= pos <= |s| && (lit.Ok? ==> pos == lit.pos)
    {
      SkipSpaces();
      if pos < |s| && IsQuote(s[pos]) {
        lit := ReadQuoted();
      } else {
        lit := ReadBare();
      }
    }

    method ReadQuoted() returns (lit: Result<string>)
      requires pos < |s|
      modifies this
      ensures
        var start := old(pos) + 1;
        var end := QuoteEnd(s, start, s[old(pos)]);
        lit == if end == |s| then Err(Unterminated) else Ok(s[start..end], end + 1)
      ensures old(pos) <= pos <= |s| && (lit.Ok? ==> pos == lit.pos)
    {
      var quote := s[pos];
      pos := pos + 1;
      var start := pos;
      while pos < |s| && s[pos] != quote
        invariant start <= pos <= |s|
        invariant QuoteEnd(s, pos, quote) == QuoteEnd(s, start, quote)
      {
        pos := pos + 1;
      }
      if pos == |s| {
        return Err(Unterminated);
      }
      pos := pos + 1;
      return Ok(s[start..pos - 1], pos);
    }

    method ReadBare() returns (lit: Result<string>)
      requires pos <= |s|
      modifies this
      ensures
        var end := BareEnd(s, old(pos));
        pos == end && lit == if end == old(pos) then Err(NoLiteral) else Ok(s[old(pos)..end], end)
    {
      var start := pos;
      while pos < |s| && !IsSpace(s[pos]) && s[pos] != ')'
        invariant start <= pos <= |s|
        invariant BareEnd(s, pos) == BareEnd(s, start)
      {
        pos := pos + 1;
      }
      if start == pos {
        return Err(NoLiteral);
      }
      return Ok(s[start..pos], pos);
    }
  }

  /** The fused pass decides exactly what parsing and then evaluating decides: whether the expression,
      as the grammar reads it, is true of the event. */
  method MatchExpr(lib: Lib, expr: string, ev: Subject) returns (holds: bool)
    ensures holds == Matches(lib, expr, ev)
    ensures holds <==> TrueOf(lib, expr, ev)
  {
    MatchesTrue(lib, expr, ev);
    var trimmed := TrimSpace(expr);
    if trimmed == "" {
      return true;
    }
    var p := new ExprParser(lib, trimmed, ev);
    var out := p.RunOr();
    if out.Fail? {
      return false;
    }
    p.SkipSpaces();
    if p.pos != |p.s| {
      return false;
    }
    return out.holds;
  }
}
