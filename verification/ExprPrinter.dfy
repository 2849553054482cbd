/** Printing an expression with as few parentheses as its structure allows. */
module ExprPrinter {
  import opened Expr
  import opened ExprGrammar
  import opened ExprRoundTrip
  import opened GoLib

  function PrintLit(lit: string): (c: LitC)
    ensures c.Text() == lit
  {
    if '"' !in lit then Quoted('"', lit)
    else if '\'' !in lit then Quoted('\'', lit)
    else Bare(lit)
  }

  /** Some spelling of every literal survives: a quote it lacks, or none. */
  predicate Printable(e: Expr) {
    match e
    case Cmp(_, _, lit) => PrintLit(lit).Ok()
    case And(l, r) => Printable(l) && Printable(r)
    case Or(l, r) => Printable(l) && Printable(r)
  }

  function OpText(op: Op): (text: string)
    ensures OpOf(text) == Some(op)
  {
    match op
    case Eq => "=="
    case Ne => "!="
    case Glob => "~"
    case Gt => ">"
    case Ge => ">="
    case Lt => "<"
    case Le => "<="
  }

  /** A disjunction needs no parentheses at the outer level, a conjunction none inside a disjunction. */
  function PrintOr(e: Expr): OrC
    decreases e, if e.Or? then 0 else 3
  {
    match e
    case Or(l, r) => MoreOr(PrintOr(l), " ", OR, " ", PrintAnd(r))
    case _ => OneAnd(PrintAnd(e))
  }

  function PrintAnd(e: Expr): AndC
    decreases e, if e.And? then 0 else 2
  {
    match e
    case And(l, r) => MoreAnd(PrintAnd(l), " ", AND, " ", PrintAtom(r))
    case Or(_, _) => OneAtom(Parens("", PrintOr(e), ""))
    case Cmp(_, _, _) => OneAtom(PrintAtom(e))
  }

  function PrintAtom(e: Expr): AtomC
    decreases e, if e.Cmp? then 0 else 4
  {
    match e
    case Cmp(field, op, lit) => Comparison(field, " ", OpText(op), " ", PrintLit(lit))
    case _ => Parens("", PrintOr(e), "")
  }

  function Print(e: Expr): string {
    ShowOr(PrintOr(e))
  }

  lemma {:induction false} PrintedOr(lib: Lib, e: Expr)
    requires Typed(lib, e) && Printable(e)
    ensures OrOk(lib, PrintOr(e)) && OrAst(lib, PrintOr(e)) == e
    decreases e, if e.Or? then 0 else 3
  {
    match e {
      case Or(l, r) =>
        PrintedOr(lib, l);
        PrintedAnd(lib, r);
      case _ =>
        PrintedAnd(lib, e);
    }
  }

  lemma {:induction false} PrintedAnd(lib: Lib, e: Expr)
    requires Typed(lib, e) && Printable(e)
    ensures AndOk(lib, PrintAnd(e)) && AndAst(lib, PrintAnd(e)) == e
    decreases e, if e.And? then 0 else 2
  {
    match e {
      case And(l, r) =>
        PrintedAnd(lib, l);
        PrintedAtom(lib, r);
      case Or(_, _) =>
        PrintedOr(lib, e);
      case Cmp(_, _, _) =>
        PrintedAtom(lib, e);
    }
  }

  lemma {:induction false} PrintedAtom(lib: Lib, e: Expr)
    requires Typed(lib, e) && Printable(e)
    ensures AtomOk(lib, PrintAtom(e)) && AtomAst(lib, PrintAtom(e)) == e
    decreases e, if e.Cmp? then 0 else 4
  {
    if !e.Cmp? {
      PrintedOr(lib, e);
    }
  }

  /** A printed expression parses back, completely, to itself. */
  lemma PrintParse(lib: Lib, e: Expr)
    requires Typed(lib, e) && Printable(e)
    ensures Parse(lib, Print(e)) == Some(e)
  {
    PrintedOr(lib, e);
    RendersItself(PrintOr(e));
    RenderingParses(lib, Print(e), PrintOr(e));
  }

  lemma RendersItself(c: OrC)
    ensures Renders(ShowOr(c), c)
  {
    var lead: string, trail: string := "", "";
    assert Spaces(lead) && Spaces(trail) && ShowOr(c) == lead + (ShowOr(c) + trail);
  }

  // ---------------------------------------------------------------- parentheses

  function AtomParens(c: AtomC): nat {
    match c
    case Comparison(_, _, _, _, _) => 0
    case Parens(_, inner, _) => 1 + OrParens(inner)
  }

  function AndParens(c: AndC): nat {
    match c
    case OneAtom(atom) => AtomParens(atom)
    case MoreAnd(left, _, _, _, right) => AndParens(left) + AtomParens(right)
  }

  function OrParens(c: OrC): nat {
    match c
    case OneAnd(conj) => AndParens(conj)
    case MoreOr(left, _, _, _, right) => OrParens(left) + AndParens(right)
  }

  /** No text for the same expression has fewer parentheses. */
  lemma {:induction false} FewestParens(lib: Lib, c: OrC)
    requires OrOk(lib, c)
    ensures OrParens(PrintOr(OrAst(lib, c))) <= OrParens(c)
  {
    match c {
      case OneAnd(conj) =>
        FewestInAnd(lib, conj);
      case MoreOr(left, _, _, _, right) =>
        FewestParens(lib, left);
        FewestInAnd(lib, right);
    }
  }

  lemma {:induction false} FewestInAnd(lib: Lib, c: AndC)
    requires AndOk(lib, c)
    ensures AndParens(PrintAnd(AndAst(lib, c))) <= AndParens(c)
  {
    match c {
      case OneAtom(atom) =>
        FewestInAtom(lib, atom);
      case MoreAnd(left, _, _, _, right) =>
        FewestInAnd(lib, left);
        FewestInAtom(lib, right);
    }
  }

  lemma {:induction false} FewestInAtom(lib: Lib, c: AtomC)
    requires AtomOk(lib, c)
    ensures AtomParens(PrintAtom(AtomAst(lib, c))) <= AtomParens(c)
  {
    if c.Parens? {
      FewestParens(lib, c.inner);
    }
  }
}
