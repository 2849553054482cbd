/** What a matcher expression decides, in terms of the grammar and of the printed form. */
module ExprMeaning {
  import opened Expr
  import opened ExprGrammar
  import opened ExprPrinter
  import opened ExprRoundTrip
  import opened ExprSoundness
  import opened GoLib
  import opened Text

  /** The trimmed text is derived by a tree that holds of the event. */
  ghost predicate HoldsByGrammar(lib: Lib, expr: string, ev: Subject) {
    exists c: OrC :: OrOk(lib, c) && Renders(TrimSpace(expr), c) && Eval(lib, OrAst(lib, c), ev)
  }

  /** An expression matches exactly when it is blank or the grammar gives it a meaning that holds. */
  lemma MatchesExactly(lib: Lib, expr: string, ev: Subject)
    ensures Matches(lib, expr, ev) <==> TrimSpace(expr) == "" || HoldsByGrammar(lib, expr, ev)
  {
    var s := TrimSpace(expr);
    if s != "" {
      if HoldsByGrammar(lib, expr, ev) {
        var c: OrC :| OrOk(lib, c) && Renders(s, c) && Eval(lib, OrAst(lib, c), ev);
        RenderingParses(lib, s, c);
      }
      if Matches(lib, expr, ev) {
        var c := ParsedRenders(lib, s, Parse(lib, s).value);
        assert OrOk(lib, c) && Renders(s, c) && Eval(lib, OrAst(lib, c), ev);
      }
    }
  }

  /** A text that renders a tree matches exactly the events its meaning holds of. */
  lemma RenderedMatches(lib: Lib, s: string, c: OrC, ev: Subject)
    requires OrOk(lib, c) && Renders(s, c) && TrimSpace(s) == s
    ensures Matches(lib, s, ev) == Eval(lib, OrAst(lib, c), ev)
  {
    RenderingParses(lib, s, c);
    RenderedIsNotBlank(lib, s, c);
  }

  lemma RenderedIsNotBlank(lib: Lib, s: string, c: OrC)
    requires OrOk(lib, c) && Renders(s, c)
    ensures s != ""
  {
    OrStart(lib, c);
  }

  /** A printed expression decides as the expression does, unless trimming cuts into its last literal. */
  lemma PrintedMatches(lib: Lib, e: Expr, ev: Subject)
    requires Typed(lib, e) && Printable(e) && BackSpace(Print(e)) == 0
    ensures Matches(lib, Print(e), ev) == Eval(lib, e, ev)
  {
    var c := PrintOr(e);
    PrintedOr(lib, e);
    RendersItself(c);
    FrontOfTree(lib, c);
    RenderedMatches(lib, Print(e), c, ev);
  }

  lemma {:induction false} FrontOfAnd(lib: Lib, c: AndC)
    requires AndOk(lib, c)
    ensures ShowAnd(c) != "" && '!' <= ShowAnd(c)[0] <= '~'
  {
    match c {
      case OneAtom(Comparison(field, _, _, _, _)) => assert ShowAnd(c)[0] == FieldName(field)[0];
      case OneAtom(Parens(_, _, _)) =>
      case MoreAnd(left, _, _, _, _) => FrontOfAnd(lib, left);
    }
  }

  lemma {:induction false} FrontOfTree(lib: Lib, c: OrC)
    requires OrOk(lib, c)
    ensures FrontSpace(ShowOr(c)) == 0 && ShowOr(c) != "" && '!' <= ShowOr(c)[0] <= '~'
  {
    match c {
      case OneAnd(conj) => FrontOfAnd(lib, conj);
      case MoreOr(left, _, _, _, _) => FrontOfTree(lib, left);
    }
  }

  function Parenthesized(c: OrC): OrC {
    OneAnd(OneAtom(Parens("", c, "")))
  }

  lemma ShowParens(c: OrC)
    ensures ShowOr(Parenthesized(c)) == "(" + ShowOr(c) + ")"
  {
    var atom := Parens("", c, "");
    assert "" + (ShowOr(c) + ("" + ")")) == ShowOr(c) + ")";
    assert ShowAtom(atom) == "(" + ShowOr(c) + ")";
    assert ShowAnd(OneAtom(atom)) == ShowAtom(atom);
  }

  lemma TrimOfGraphicEnds(s: string)
    requires s != "" && '!' <= s[0] <= '~' && '!' <= s[|s| - 1] <= '~'
    ensures TrimSpace(s) == s
  {
  }

  /** With parentheses around it, it always does. */
  lemma ParenthesizedMatches(lib: Lib, e: Expr, ev: Subject)
    requires Typed(lib, e) && Printable(e)
    ensures Matches(lib, "(" + Print(e) + ")", ev) == Eval(lib, e, ev)
  {
    var c := Parenthesized(PrintOr(e));
    PrintedOr(lib, e);
    RendersItself(c);
    var s := "(" + Print(e) + ")";
    ShowParens(PrintOr(e));
    TrimOfGraphicEnds(s);
    assert OrOk(lib, c) && OrAst(lib, c) == e by {
      var atom := c.conj.atom;
      assert AtomOk(lib, atom) && AtomAst(lib, atom) == e;
      assert AndOk(lib, c.conj) && AndAst(lib, c.conj) == e;
    }
    RenderedMatches(lib, s, c, ev);
  }
}
