/** When white space trimming cuts into the last literal of a printed expression. */
module ExprTrimming {
  import opened Expr
  import opened ExprGrammar
  import opened ExprMeaning
  import opened ExprPrinter
  import opened ExprSoundness
  import opened GoLib
  import opened Text

  /** The literal that stands last in every text of e. */
  function LastLit(e: Expr): string {
    match e
    case Cmp(_, _, lit) => lit
    case And(_, r) => LastLit(r)
    case Or(_, r) => LastLit(r)
  }

  /** A literal that can only be written without quotes. */
  predicate OnlyBare(w: string) {
    '"' in w && '\'' in w
  }

  lemma BareHasNoGap(w: string, i: nat)
    requires Bare(w).Ok() && i < |w|
    ensures !IsSpace(w[i]) && w[i] != ')'
  {
    assert w[i] in w;
  }

  // ---------------------------------------------------------------- how printed texts end

  /** t ends in a visible character, or in the literal w behind a blank. */
  predicate PrintEnd(t: string, w: string) {
    t != "" &&
    ('!' <= t[|t| - 1] <= '~' || (OnlyBare(w) && Bare(w).Ok() && |w| < |t| && t[|t| - |w| - 1..] == " " + w))
  }

  lemma PrintEndGrows(x: string, t: string, w: string)
    requires PrintEnd(t, w)
    ensures PrintEnd(x + t, w)
  {
    var n := |x| + |t|;
    assert (x + t)[n - 1] == t[|t| - 1];
    if |w| < |t| {
      assert (x + t)[n - |w| - 1..] == t[|t| - |w| - 1..];
    }
  }

  lemma ParensEnd(before: string, inner: string, after: string, w: string)
    ensures PrintEnd("(" + (before + (inner + (after + ")"))), w)
  {
    var close := ")";
    assert PrintEnd(close, w);
    PrintEndGrows(after, close, w);
    PrintEndGrows(inner, after + close, w);
    PrintEndGrows(before, inner + (after + close), w);
    PrintEndGrows("(", before + (inner + (after + close)), w);
  }

  lemma LiteralEnd(name: string, opText: string, lit: string)
    requires PrintLit(lit).Ok()
    ensures PrintEnd(name + (" " + (opText + (" " + PrintLit(lit).Show()))), lit)
  {
    var end := " " + PrintLit(lit).Show();
    assert PrintEnd(end, lit);
    PrintEndGrows(opText, end, lit);
    PrintEndGrows(" ", opText + end, lit);
    PrintEndGrows(name, " " + (opText + end), lit);
  }

  lemma ChainEnd(left: string, kw: string, right: string, w: string)
    requires PrintEnd(right, w)
    ensures PrintEnd(left + (" " + (kw + (" " + right))), w)
  {
    PrintEndGrows(" ", right, w);
    PrintEndGrows(kw, " " + right, w);
    PrintEndGrows(" ", kw + (" " + right), w);
    PrintEndGrows(left, " " + (kw + (" " + right)), w);
  }

  lemma {:induction false} PrintedOrEnd(e: Expr)
    requires Printable(e)
    ensures PrintEnd(ShowOr(PrintOr(e)), LastLit(e))
    decreases e, if e.Or? then 0 else 3
  {
    match e {
      case Or(l, r) =>
        PrintedAndEnd(r);
        ChainEnd(ShowOr(PrintOr(l)), OR, ShowAnd(PrintAnd(r)), LastLit(r));
      case _ =>
        PrintedAndEnd(e);
    }
  }

  lemma {:induction false} PrintedAndEnd(e: Expr)
    requires Printable(e)
    ensures PrintEnd(ShowAnd(PrintAnd(e)), LastLit(e))
    decreases e, if e.And? then 0 else 2
  {
    match e {
      case And(l, r) =>
        PrintedAtomEnd(r);
        ChainEnd(ShowAnd(PrintAnd(l)), AND, ShowAtom(PrintAtom(r)), LastLit(r));
      case Or(_, _) =>
        ParensEnd("", ShowOr(PrintOr(e)), "", LastLit(e));
      case Cmp(_, _, _) =>
        PrintedAtomEnd(e);
    }
  }

  lemma PrintedAtomEnd(e: Expr)
    requires Printable(e)
    ensures PrintEnd(ShowAtom(PrintAtom(e)), LastLit(e))
  {
    match e {
      case Cmp(field, op, lit) => LiteralEnd(FieldName(field), OpText(op), lit);
      case _ => ParensEnd("", ShowOr(PrintOr(e)), "", LastLit(e));
    }
  }

  /** s ends in the literal w behind a blank, and k lies inside that literal. */
  predicate CutInside(s: string, k: nat, w: string) {
    OnlyBare(w) && Bare(w).Ok() && |w| < |s| && s[|s| - |w| - 1..] == " " + w && |s| - |w| < k < |s|
  }

  // ---------------------------------------------------------------- how every text of the grammar ends

  predicate Closing(c: char) {
    IsSpace(c) || c == ')'
  }

  /** w ends at n, and only white space and closing parentheses follow. */
  predicate EndsIn(t: string, w: string, n: nat) {
    |w| <= n <= |t| && t[n - |w|..n] == w && forall i :: n <= i < |t| ==> Closing(t[i])
  }

  lemma EndsInGrows(x: string, t: string, y: string, w: string, n: nat)
    requires EndsIn(t, w, n) && forall c :: c in y ==> Closing(c)
    ensures EndsIn(x + (t + y), w, |x| + n)
  {
    var s := x + (t + y);
    var m := |x| + n;
    assert s[m - |w|..m] == t[n - |w|..n];
    forall i | m <= i < |s| ensures Closing(s[i]) {
      if i < |x| + |t| {
        assert s[i] == t[i - |x|];
      } else {
        assert s[i] in y;
      }
    }
  }

  lemma {:induction false} OrTextEnd(lib: Lib, c: OrC, w: string) returns (n: nat)
    requires OrOk(lib, c) && LastLit(OrAst(lib, c)) == w && OnlyBare(w)
    ensures EndsIn(ShowOr(c), w, n)
  {
    match c {
      case OneAnd(conj) =>
        n := AndTextEnd(lib, conj, w);
      case MoreOr(left, before, kw, after, right) =>
        var t := ShowAnd(right);
        n := AndTextEnd(lib, right, w);
        n := ChainTextEnd(ShowOr(left), before, kw, after, t, w, n);
    }
  }

  lemma {:induction false} AndTextEnd(lib: Lib, c: AndC, w: string) returns (n: nat)
    requires AndOk(lib, c) && LastLit(AndAst(lib, c)) == w && OnlyBare(w)
    ensures EndsIn(ShowAnd(c), w, n)
  {
    match c {
      case OneAtom(atom) =>
        n := AtomTextEnd(lib, atom, w);
      case MoreAnd(left, before, kw, after, right) =>
        var t := ShowAtom(right);
        n := AtomTextEnd(lib, right, w);
        n := ChainTextEnd(ShowAnd(left), before, kw, after, t, w, n);
    }
  }

  lemma {:induction false} AtomTextEnd(lib: Lib, c: AtomC, w: string) returns (n: nat)
    requires AtomOk(lib, c) && LastLit(AtomAst(lib, c)) == w && OnlyBare(w)
    ensures EndsIn(ShowAtom(c), w, n)
  {
    match c {
      case Comparison(field, gap, opText, gap2, lit) =>
        UnquotedWhenOnlyBare(lit);
        n := ChainTextEnd(FieldName(field), gap, opText, gap2, w, w, |w|);
      case Parens(before, inner, after) =>
        n := OrTextEnd(lib, inner, w);
        n := ParensTextEnd(before, ShowOr(inner), after, w, n);
    }
  }

  lemma ParensTextEnd(before: string, t: string, after: string, w: string, n: nat) returns (m: nat)
    requires EndsIn(t, w, n) && Spaces(after)
    ensures EndsIn("(" + (before + (t + (after + ")"))), w, m)
  {
    var x, y := "(" + before, after + ")";
    EndsInGrows(x, t, y, w, n);
    assert x + (t + y) == "(" + (before + (t + (after + ")")));
    m := |x| + n;
  }

  lemma UnquotedWhenOnlyBare(lit: LitC)
    requires lit.Ok() && OnlyBare(lit.Text())
    ensures lit.Bare?
  {
  }

  lemma ChainTextEnd(left: string, before: string, kw: string, after: string, t: string, w: string, n: nat)
    returns (m: nat)
    requires EndsIn(t, w, n)
    ensures EndsIn(left + (before + (kw + (after + t))), w, m)
  {
    var x := left + (before + (kw + after));
    EndsInGrows(x, t, "", w, n);
    assert x + (t + "") == left + (before + (kw + (after + t)));
    m := |x| + n;
  }

  // ---------------------------------------------------------------- what trimming leaves

  /** Trimming the end keeps everything up to any visible character. */
  lemma {:induction false} TrimRightIsPrefix(s: string, i: nat)
    requires i < |s| && '!' <= s[i] <= '~'
    ensures var t := TrimRight(s); i < |t| <= |s| && t == s[..|t|]
    decreases |s|
  {
    var n := |s| - BackSpace(s);
    if n < |s| {
      assert i < n;
      TrimRightIsPrefix(s[..n], i);
    }
  }

  lemma RenderedEnd(lib: Lib, t: string, c: OrC, w: string) returns (n: nat)
    requires OrOk(lib, c) && Renders(t, c) && LastLit(OrAst(lib, c)) == w && OnlyBare(w)
    ensures EndsIn(t, w, n)
  {
    n := OrTextEnd(lib, c, w);
    n := LayoutEnd(t, c, w, n);
  }

  lemma LayoutEnd(t: string, c: OrC, w: string, n: nat) returns (m: nat)
    requires Renders(t, c) && EndsIn(ShowOr(c), w, n)
    ensures EndsIn(t, w, m)
  {
    var lead: string, trail: string :| Spaces(lead) && Spaces(trail) && t == lead + (ShowOr(c) + trail);
    EndsInGrows(lead, ShowOr(c), trail, w, n);
    m := |lead| + n;
  }

  /** A text cut inside its last literal does not end in that literal. */
  lemma CutMissesWord(s: string, k: nat, w: string, n: nat)
    requires CutInside(s, k, w)
    ensures !EndsIn(s[..k], w, n)
  {
    var t, blank := s[..k], |s| - |w| - 1;
    if EndsIn(t, w, n) {
      BareHasNoGap(w, k - 1 - blank - 1);
      assert t[k - 1] == (" " + w)[k - 1 - blank];
      assert n == k;
      assert t[k - |w|..k][blank - (k - |w|)] == s[blank] == (" " + w)[0];
      BareHasNoGap(w, blank - (k - |w|));
    }
  }

  /** What trimming leaves of a printed text reads as the expression exactly when it cuts nothing off. */
  lemma TrimmedReadsExactly(lib: Lib, e: Expr)
    requires Typed(lib, e) && Printable(e)
    ensures Parse(lib, TrimSpace(Print(e))) == Some(e) <==> BackSpace(Print(e)) == 0
  {
    var s := Print(e);
    PrintedOr(lib, e);
    FrontOfTree(lib, PrintOr(e));
    if BackSpace(s) == 0 {
      PrintParse(lib, e);
    } else {
      PrintedOrEnd(e);
      var k := TrimmedInsideWord(s, LastLit(e));
      CutReadsDifferently(lib, e, s, k);
    }
  }

  lemma CutReadsDifferently(lib: Lib, e: Expr, s: string, k: nat)
    requires CutInside(s, k, LastLit(e))
    ensures Parse(lib, s[..k]) != Some(e)
  {
    if Parse(lib, s[..k]) == Some(e) {
      var c := ParsedRenders(lib, s[..k], e);
      var n := RenderedEnd(lib, s[..k], c, LastLit(e));
      CutMissesWord(s, k, LastLit(e), n);
    }
  }

  lemma TrimmedInsideWord(s: string, w: string) returns (k: nat)
    requires PrintEnd(s, w) && FrontSpace(s) == 0 && BackSpace(s) != 0
    ensures CutInside(s, k, w) && TrimSpace(s) == s[..k]
  {
    var i: nat :| i < |w| && w[i] == '"';
    var blank := |s| - |w| - 1;
    assert s[blank + 1 + i] == (" " + w)[1 + i];
    TrimRightIsPrefix(s, blank + 1 + i);
    TrimRightDone(s);
    k := |TrimRight(s)|;
  }

  // ---------------------------------------------------------------- an input it fails on

  const STEM := ['a', '"', '\'']
  const EM_SPACE := [0xE2 as char, 0x80 as char, 0x83 as char]

  function UnitIs(word: string): Expr {
    Cmp(Unit, Eq, word)
  }

  /** The tokens may hold the encoding of U+2003, which TrimSpace drops: a test for a unit that ends
      in it matches the events whose unit lacks it. */
  lemma TrimmingCanCut(lib: Lib, ev: Subject)
    requires ev.unit == STEM
    ensures
      var e := UnitIs(STEM + EM_SPACE);
      Typed(lib, e) && Printable(e) && !Eval(lib, e, ev) && Matches(lib, Print(e), ev)
  {
    var s := "unit == " + STEM;
    BarePrints(STEM);
    BarePrints(STEM + EM_SPACE);
    assert "unit == " + (STEM + EM_SPACE) == s + EM_SPACE;
    TrimTail(s);
    PrintedMatches(lib, UnitIs(STEM), ev);
    TrimOfGraphicEnds(s);
  }

  lemma BarePrints(word: string)
    requires word == STEM || word == STEM + EM_SPACE
    ensures Print(UnitIs(word)) == "unit == " + word && Printable(UnitIs(word))
  {
    assert word[0] == 'a' && word[1] == '"' && word[2] == '\'';
    PrintsBare(word);
    ShowsBare(word);
  }

  function UnitTree(word: string): AtomC {
    Comparison(Unit, " ", "==", " ", Bare(word))
  }

  lemma PrintsBare(word: string)
    requires OnlyBare(word)
    ensures PrintOr(UnitIs(word)) == OneAnd(OneAtom(UnitTree(word)))
  {
    assert PrintAtom(UnitIs(word)) == UnitTree(word);
    assert PrintAnd(UnitIs(word)) == OneAtom(UnitTree(word));
  }

  lemma ShowsBare(word: string)
    ensures ShowOr(OneAnd(OneAtom(UnitTree(word)))) == "unit == " + word
  {
    assert ShowAtom(UnitTree(word)) == "unit" + (" " + ("==" + (" " + word))) == "unit == " + word;
    assert ShowAnd(OneAtom(UnitTree(word))) == ShowAtom(UnitTree(word));
  }

  lemma TrimTail(s: string)
    requires s != "" && '!' <= s[0] <= '~' && '!' <= s[|s| - 1] <= '~'
    ensures TrimSpace(s + EM_SPACE) == s
  {
    var t := s + EM_SPACE;
    assert t[|t| - 1] == EM_SPACE[2] && t[|t| - 2] == EM_SPACE[1] && t[|t| - 3] == EM_SPACE[0];
    assert TrimLeft(t) == t;
    assert BackSpace(t) == 3 && t[..|t| - 3] == s;
    assert TrimRight(s) == s;
  }
}
