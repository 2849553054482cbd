/** The concrete syntax of matcher expressions, written down as a grammar: every token with its
    spelling and the white space around it. */
module ExprGrammar {
  import opened Expr
  import opened GoLib

  /** A literal as written. */
  datatype LitC = Quoted(quote: char, body: string) | Bare(word: string) {
    function Show(): string {
      match this
      case Quoted(q, body) => [q] + body + [q]
      case Bare(word) => word
    }

    function Text(): string {
      match this
      case Quoted(_, body) => body
      case Bare(word) => word
    }

    predicate Ok() {
      match this
      case Quoted(q, body) => IsQuote(q) && q !in body
      case Bare(word) =>
        && word != "" && !IsQuote(word[0])
        && forall c :: c in word ==> !IsSpace(c) && c != ')'
    }
  }

  datatype AtomC =
    | Comparison(field: Field, gap: string, opText: string, gap2: string, lit: LitC)
    | Parens(before: string, inner: OrC, after: string)

  /** atom ("and" atom)*, each keyword in any letter case. */
  datatype AndC =
    | OneAtom(atom: AtomC)
    | MoreAnd(left: AndC, before: string, kw: string, after: string, right: AtomC)

  datatype OrC =
    | OneAnd(conj: AndC)
    | MoreOr(left: OrC, before: string, kw: string, after: string, right: AndC)

  function FieldName(field: Field): (name: string)
    ensures FieldOf(name) == Some(field)
    ensures name != "" && forall c :: c in name ==> IsWord(c) && !IsSpace(c)
  {
    match field
    case Metric => "metric"
    case Device => "device"
    case Unit => "unit"
    case Value => "value"
  }

  function OpOf(text: string): Option<Op> {
    if text == "==" || text == "=" then Some(Eq)
    else if text == "!=" || text == "!" then Some(Ne)
    else if text == ">=" then Some(Ge)
    else if text == "<=" then Some(Le)
    else if text == "~" then Some(Glob)
    else if text == ">" then Some(Gt)
    else if text == "<" then Some(Lt)
    else None
  }

  // ---------------------------------------------------------------- text of a tree

  function ShowAtom(c: AtomC): string {
    match c
    case Comparison(field, gap, opText, gap2, lit) => FieldName(field) + (gap + (opText + (gap2 + lit.Show())))
    case Parens(before, inner, after) => "(" + (before + (ShowOr(inner) + (after + ")")))
  }

  function ShowAnd(c: AndC): string {
    match c
    case OneAtom(atom) => ShowAtom(atom)
    case MoreAnd(left, before, kw, after, right) => ShowAnd(left) + (before + (kw + (after + ShowAtom(right))))
  }

  function ShowOr(c: OrC): string {
    match c
    case OneAnd(conj) => ShowAnd(conj)
    case MoreOr(left, before, kw, after, right) => ShowOr(left) + (before + (kw + (after + ShowAnd(right))))
  }

  // ---------------------------------------------------------------- meaning of a tree

  function AtomAst(lib: Lib, c: AtomC): (e: Expr)
    requires AtomOk(lib, c)
    ensures Typed(lib, e)
  {
    match c
    case Comparison(field, _, opText, _, lit) => Cmp(field, OpOf(opText).value, lit.Text())
    case Parens(_, inner, _) => OrAst(lib, inner)
  }

  function AndAst(lib: Lib, c: AndC): (e: Expr)
    requires AndOk(lib, c)
    ensures Typed(lib, e)
  {
    match c
    case OneAtom(atom) => AtomAst(lib, atom)
    case MoreAnd(left, _, _, _, right) => And(AndAst(lib, left), AtomAst(lib, right))
  }

  function OrAst(lib: Lib, c: OrC): (e: Expr)
    requires OrOk(lib, c)
    ensures Typed(lib, e)
  {
    match c
    case OneAnd(conj) => AndAst(lib, conj)
    case MoreOr(left, _, _, _, right) => Or(OrAst(lib, left), AndAst(lib, right))
  }

  // ---------------------------------------------------------------- where tokens may touch

  predicate Spaces(gap: string) {
    forall c :: c in gap ==> IsSpace(c)
  }

  /** The text ends in an unquoted literal, which the next token must not extend. */
  predicate AtomEndsBare(c: AtomC) {
    c.Comparison? && c.lit.Bare?
  }

  predicate AndEndsBare(c: AndC) {
    AtomEndsBare(match c case OneAtom(atom) => atom case MoreAnd(_, _, _, _, right) => right)
  }

  predicate OrEndsBare(c: OrC) {
    AndEndsBare(match c case OneAnd(conj) => conj case MoreOr(_, _, _, _, right) => right)
  }

  predicate AndStartsParen(c: AndC) {
    match c
    case OneAtom(atom) => atom.Parens?
    case MoreAnd(left, _, _, _, _) => AndStartsParen(left)
  }

  /** The spellings that an equals sign would lengthen. */
  predicate OneChar(opText: string) {
    opText == "=" || opText == "!" || opText == ">" || opText == "<"
  }

  /** A one-character operator would swallow an equals sign that touches it. */
  predicate OpKeptApart(opText: string, gap2: string, lit: LitC) {
    OneChar(opText) && gap2 == "" && lit.Bare? && lit.word != "" ==> lit.word[0] != '='
  }

  predicate AtomOk(lib: Lib, c: AtomC) {
    match c
    case Comparison(field, gap, opText, gap2, lit) =>
      && Spaces(gap) && Spaces(gap2) && OpOf(opText).Some? && lit.Ok()
      && WellTyped(lib, field, lit.Text()) && OpKeptApart(opText, gap2, lit)
    case Parens(before, inner, after) => Spaces(before) && Spaces(after) && OrOk(lib, inner)
  }

  predicate AndOk(lib: Lib, c: AndC) {
    match c
    case OneAtom(atom) => AtomOk(lib, atom)
    case MoreAnd(left, before, kw, after, right) =>
      && AndOk(lib, left) && AtomOk(lib, right)
      && Spaces(before) && Spaces(after) && FoldsTo(kw, AND)
      && (AndEndsBare(left) ==> before != "") && (after == "" ==> right.Parens?)
  }

  predicate OrOk(lib: Lib, c: OrC) {
    match c
    case OneAnd(conj) => AndOk(lib, conj)
    case MoreOr(left, before, kw, after, right) =>
      && OrOk(lib, left) && AndOk(lib, right)
      && Spaces(before) && Spaces(after) && FoldsTo(kw, OR)
      && (OrEndsBare(left) ==> before != "") && (after == "" ==> AndStartsParen(right))
  }

  /** s is the text of c, up to white space at either end. */
  ghost predicate Renders(s: string, c: OrC) {
    exists lead: string, trail: string :: Spaces(lead) && Spaces(trail) && s == lead + (ShowOr(c) + trail)
  }
}
