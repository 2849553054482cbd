/** What a matcher expression decides of an event, read off its text: the fields it names, its operators
    as relations between numbers or texts, and its literals. */
module ExprDecision {
  import opened Expr
  import opened ExprGrammar
  import opened ExprMeaning
  import opened ExprPrinter
  import opened GoLib
  import opened Text
  import opened Trimming

  // ---------------------------------------------------------------- numbers

  function Signed(neg: bool, mag: real): real {
    if neg then 0.0 - mag else mag
  }

  /** Where a double that is not NaN lies: below, among or above the numbers, and where among them. */
  function Place(f: Float): (int, real)
    requires !f.NaN?
  {
    match f
    case Inf(neg) => (if neg then -1 else 1, 0.0)
    case Fin(neg, mag) => (0, Signed(neg, mag))
  }

  predicate Under(a: Float, b: Float) {
    && !a.NaN? && !b.NaN?
    && (Place(a).0 < Place(b).0 || (Place(a).0 == Place(b).0 && Place(a).1 < Place(b).1))
  }

  predicate Same(a: Float, b: Float) {
    !a.NaN? && !b.NaN? && Place(a) == Place(b)
  }

  /** A finite difference of less than a thousandth of a millionth. */
  predicate Tiny(d: Float) {
    d.Fin? && -0.000000001 < Signed(d.neg, d.mag) < 0.000000001
  }

  /** The number stands in the relation to the other; with NaN none holds but `!=`. */
  predicate NumberSays(lib: Lib, op: string, got: Float, want: Float) {
    || (op == ">" && Under(want, got))
    || (op == ">=" && (Under(want, got) || Same(want, got)))
    || (op == "<" && Under(got, want))
    || (op == "<=" && (Under(got, want) || Same(got, want)))
    || ((op == "==" || op == "=") && Same(got, want))
    || ((op == "!=" || op == "!") && !Same(got, want))
    || (op == "~" && Tiny(lib.subtract(got, want)))
  }

  /** The text equals the other, differs from it, or matches it as a pattern; no text is before another. */
  predicate TextSays(lib: Lib, op: string, got: string, want: string) {
    || ((op == "==" || op == "=") && got == want)
    || ((op == "!=" || op == "!") && got != want)
    || (op == "~" && lib.pathMatch(want, got) == Some(true))
  }

  // ---------------------------------------------------------------- trees

  predicate ComparisonSays(lib: Lib, name: string, op: string, lit: string, ev: Subject) {
    || (name == "metric" && TextSays(lib, op, ev.metric, lit))
    || (name == "device" && TextSays(lib, op, ev.deviceId, lit))
    || (name == "unit" && TextSays(lib, op, ev.unit, lit))
    || (name == "value" && lib.parseFloat(lit).Some? && NumberSays(lib, op, ev.value, lib.parseFloat(lit).value))
  }

  predicate AtomSays(lib: Lib, c: AtomC, ev: Subject) {
    match c
    case Comparison(field, _, op, _, lit) =>
      ComparisonSays(lib, FieldName(field), op, match lit case Quoted(_, body) => body case Bare(word) => word, ev)
    case Parens(_, inner, _) => OrSays(lib, inner, ev)
  }

  /** Every atom of the chain holds. */
  predicate AndSays(lib: Lib, c: AndC, ev: Subject) {
    match c
    case OneAtom(atom) => AtomSays(lib, atom, ev)
    case MoreAnd(left, _, _, _, right) => AndSays(lib, left, ev) && AtomSays(lib, right, ev)
  }

  /** Some conjunction of the chain holds. */
  predicate OrSays(lib: Lib, c: OrC, ev: Subject) {
    match c
    case OneAnd(conj) => AndSays(lib, conj, ev)
    case MoreOr(left, _, _, _, right) => OrSays(lib, left, ev) || AndSays(lib, right, ev)
  }

  // ---------------------------------------------------------------- the evaluator agrees

  lemma NumbersCompare(a: Float, b: Float)
    ensures FloatLess(a, b) == Under(a, b) && FloatEq(a, b) == Same(a, b)
  {
  }

  lemma TinyDifference(d: Float)
    ensures FloatLess(if FloatLess(d, Fin(false, 0.0)) then Negate(d) else d, TOLERANCE) == Tiny(d)
  {
  }

  lemma NumbersSay(lib: Lib, op: string, got: Float, want: Float)
    requires OpOf(op).Some?
    ensures ValueCompare(lib, OpOf(op).value, got, want) == NumberSays(lib, op, got, want)
  {
    NumbersCompare(got, want);
    NumbersCompare(want, got);
    TinyDifference(lib.subtract(got, want));
  }

  lemma TextsSay(lib: Lib, op: string, got: string, want: string)
    requires OpOf(op).Some?
    ensures StringCompare(lib, OpOf(op).value, got, want) == TextSays(lib, op, got, want)
  {
  }

  lemma ComparisonsSay(lib: Lib, field: Field, op: string, lit: string, ev: Subject)
    requires OpOf(op).Some? && WellTyped(lib, field, lit)
    ensures Compare(lib, field, OpOf(op).value, lit, ev) == ComparisonSays(lib, FieldName(field), op, lit, ev)
  {
    match field {
      case Metric => TextsSay(lib, op, ev.metric, lit);
      case Device => TextsSay(lib, op, ev.deviceId, lit);
      case Unit => TextsSay(lib, op, ev.unit, lit);
      case Value => NumbersSay(lib, op, ev.value, lib.parseFloat(lit).value);
    }
  }

  lemma {:induction false} AtomDecides(lib: Lib, c: AtomC, ev: Subject)
    requires AtomOk(lib, c)
    ensures Eval(lib, AtomAst(lib, c), ev) == AtomSays(lib, c, ev)
  {
    match c {
      case Comparison(field, _, op, _, lit) => ComparisonsSay(lib, field, op, lit.Text(), ev);
      case Parens(_, inner, _) => OrDecides(lib, inner, ev);
    }
  }

  lemma {:induction false} AndDecides(lib: Lib, c: AndC, ev: Subject)
    requires AndOk(lib, c)
    ensures Eval(lib, AndAst(lib, c), ev) == AndSays(lib, c, ev)
  {
    match c {
      case OneAtom(atom) => AtomDecides(lib, atom, ev);
      case MoreAnd(left, _, _, _, right) =>
        AndDecides(lib, left, ev);
        AtomDecides(lib, right, ev);
    }
  }

  lemma {:induction false} OrDecides(lib: Lib, c: OrC, ev: Subject)
    requires OrOk(lib, c)
    ensures Eval(lib, OrAst(lib, c), ev) == OrSays(lib, c, ev)
  {
    match c {
      case OneAnd(conj) => AndDecides(lib, conj, ev);
      case MoreOr(left, _, _, _, right) =>
        OrDecides(lib, left, ev);
        AndDecides(lib, right, ev);
    }
  }

  /** Without the white space around it the text is empty, or says something that is true of the event. */
  ghost predicate TrueOf(lib: Lib, expr: string, ev: Subject) {
    exists s :: Leaves(expr, s) && (s == "" || exists c: OrC :: OrOk(lib, c) && Renders(s, c) && OrSays(lib, c, ev))
  }

  /** An expression matches exactly the events it is true of. */
  lemma MatchesTrue(lib: Lib, expr: string, ev: Subject)
    ensures Matches(lib, expr, ev) <==> TrueOf(lib, expr, ev)
  {
    var s := TrimSpace(expr);
    TrimsExactly(expr, s);
    MatchesExactly(lib, expr, ev);
    if HoldsByGrammar(lib, expr, ev) {
      var c: OrC :| OrOk(lib, c) && Renders(s, c) && Eval(lib, OrAst(lib, c), ev);
      OrDecides(lib, c, ev);
    }
    if TrueOf(lib, expr, ev) {
      var r :| Leaves(expr, r) && (r == "" || exists c: OrC :: OrOk(lib, c) && Renders(r, c) && OrSays(lib, c, ev));
      TrimsExactly(expr, r);
      if s != "" {
        var c: OrC :| OrOk(lib, c) && Renders(s, c) && OrSays(lib, c, ev);
        OrDecides(lib, c, ev);
      }
    }
  }

  // ---------------------------------------------------------------- tokens

  /** How the grammar spells its keywords: in any letter case. */
  lemma KeywordSpelling(kw: string)
    ensures FoldsTo(kw, AND) <==>
      |kw| == 3 && (kw[0] == 'a' || kw[0] == 'A') && (kw[1] == 'n' || kw[1] == 'N') && (kw[2] == 'd' || kw[2] == 'D')
    ensures FoldsTo(kw, OR) <==> |kw| == 2 && (kw[0] == 'o' || kw[0] == 'O') && (kw[1] == 'r' || kw[1] == 'R')
  {
  }

  /** And the white space between its tokens, by code. */
  lemma GapSpelling(gap: string)
    ensures Spaces(gap) <==>
      forall c :: c in gap ==> 9 <= c as int <= 13 || c as int == 32 || c as int == 0x85 || c as int == 0xA0
  {
  }

  /** And what a word may hold: the letters and digits of Latin-1, by code, and the underscore. */
  lemma WordSpelling(c: char)
    ensures IsWord(c) <==>
      var n := c as int;
      || 48 <= n <= 57 || 65 <= n <= 90 || 97 <= n <= 122 || n == 95 || n == 170 || n == 181 || n == 186
      || (192 <= n <= 255 && n != 215 && n != 247)
  {
  }

  // ---------------------------------------------------------------- an example

  function Metrics(): AtomC {
    Comparison(Metric, " ", "==", " ", Quoted('"', "temperature"))
  }

  function Threshold(): AtomC {
    Comparison(Value, " ", ">", " ", Bare("80"))
  }

  function Alarm(): OrC {
    OneAnd(MoreAnd(OneAtom(Metrics()), " ", "and", " ", Threshold()))
  }

  const ALARM := "metric == \"temperature\" and value > 80"

  lemma MetricsText()
    ensures ShowAtom(Metrics()) == "metric == \"temperature\""
  {
    assert Metrics().lit.Show() == "\"temperature\"";
  }

  lemma ThresholdText()
    ensures ShowAtom(Threshold()) == "value > 80"
  {
  }

  lemma AlarmText()
    ensures ShowOr(Alarm()) == ALARM
  {
    MetricsText();
    ThresholdText();
    assert ShowAnd(OneAtom(Metrics())) == ShowAtom(Metrics());
    assert ShowAnd(Alarm().conj) == ShowAtom(Metrics()) + (" " + ("and" + (" " + ShowAtom(Threshold()))));
  }

  lemma AlarmIsOk(lib: Lib)
    requires lib.parseFloat("80").Some?
    ensures OrOk(lib, Alarm())
  {
    assert AtomOk(lib, Metrics()) && AtomOk(lib, Threshold());
    assert AndOk(lib, OneAtom(Metrics()));
    assert AndOk(lib, Alarm().conj);
  }

  /** The usual rule: an alarm for temperatures above eighty. */
  lemma AlarmMatches(lib: Lib, ev: Subject)
    requires lib.parseFloat("80") == Some(Fin(false, 80.0))
    ensures Matches(lib, ALARM, ev) <==>
      ev.metric == "temperature" && (ev.value == Inf(false) || (ev.value.Fin? && Signed(ev.value.neg, ev.value.mag) > 80.0))
  {
    AlarmText();
    AlarmIsOk(lib);
    AlarmSays(lib, ev);
    RendersItself(Alarm());
    TrimOfGraphicEnds(ALARM);
    RenderedMatches(lib, ALARM, Alarm(), ev);
    OrDecides(lib, Alarm(), ev);
  }

  lemma AlarmSays(lib: Lib, ev: Subject)
    requires lib.parseFloat("80") == Some(Fin(false, 80.0))
    ensures OrSays(lib, Alarm(), ev) <==>
      ev.metric == "temperature" && (ev.value == Inf(false) || (ev.value.Fin? && Signed(ev.value.neg, ev.value.mag) > 80.0))
  {
    assert AndSays(lib, OneAtom(Metrics()), ev) == AtomSays(lib, Metrics(), ev);
    assert AndSays(lib, Alarm().conj, ev) == (AndSays(lib, OneAtom(Metrics()), ev) && AtomSays(lib, Threshold(), ev));
  }
}
