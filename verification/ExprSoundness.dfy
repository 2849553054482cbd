/** Every text the parser accepts is one the grammar derives. */
module ExprSoundness {
  import opened Expr
  import opened ExprGrammar
  import opened ExprPrinter
  import opened ExprRoundTrip
  import opened GoLib

  // ---------------------------------------------------------------- tokens

  lemma {:induction false} SkippedIsSpace(s: string, pos: nat)
    requires pos <= |s|
    ensures Spaces(s[pos..SkipSpace(s, pos)]) && At(s, pos, s[pos..SkipSpace(s, pos)])
    decreases |s| - pos
  {
    var end := SkipSpace(s, pos);
    if pos < |s| && IsSpace(s[pos]) {
      SkippedIsSpace(s, pos + 1);
      assert s[pos..end] == [s[pos]] + s[pos + 1..end];
    }
  }

  /** The white space at pos, as written. */
  lemma Gap(s: string, pos: nat) returns (gap: string)
    requires pos <= |s|
    ensures Spaces(gap) && At(s, pos, gap) && SkipSpace(s, pos) == pos + |gap|
  {
    SkippedIsSpace(s, pos);
    gap := s[pos..SkipSpace(s, pos)];
  }

  lemma {:induction false} BareIsOk(s: string, pos: nat)
    requires pos <= |s|
    ensures var end := BareEnd(s, pos); Stops(s, end) && forall c :: c in s[pos..end] ==> !IsSpace(c) && c != ')'
    decreases |s| - pos
  {
    var end := BareEnd(s, pos);
    if pos < |s| && !IsSpace(s[pos]) && s[pos] != ')' {
      BareIsOk(s, pos + 1);
      assert s[pos..end] == [s[pos]] + s[pos + 1..end];
    }
  }

  lemma {:induction false} QuotedIsOk(s: string, pos: nat, q: char)
    requires pos <= |s|
    ensures var end := QuoteEnd(s, pos, q); q !in s[pos..end] && (end < |s| ==> s[end] == q)
    decreases |s| - pos
  {
    var end := QuoteEnd(s, pos, q);
    if pos < |s| && s[pos] != q {
      QuotedIsOk(s, pos + 1, q);
      assert s[pos..end] == [s[pos]] + s[pos + 1..end];
    }
  }

  lemma QuotedShows(s: string, pos: nat, q: char, close: nat)
    requires pos < close < |s| && s[pos] == q == s[close]
    ensures At(s, pos, Quoted(q, s[pos + 1..close]).Show())
    ensures |Quoted(q, s[pos + 1..close]).Show()| == close + 1 - pos
  {
    assert s[pos..close + 1] == [q] + s[pos + 1..close] + [q];
  }

  /** The literal read at pos, as written. */
  lemma LiteralSound(s: string, pos: nat, text: string, end: nat) returns (lit: LitC)
    requires pos <= |s| && SkipSpace(s, pos) == pos && ParseLiteral(s, pos) == Ok(text, end)
    ensures lit.Ok() && lit.Text() == text
    ensures At(s, pos, lit.Show()) && end == pos + |lit.Show()|
    ensures lit.Bare? ==> Stops(s, end)
  {
    if pos < |s| && IsQuote(s[pos]) {
      var q, close := s[pos], QuoteEnd(s, pos + 1, s[pos]);
      QuotedIsOk(s, pos + 1, q);
      lit := Quoted(q, s[pos + 1..close]);
      QuotedShows(s, pos, q, close);
    } else {
      BareIsOk(s, pos);
      lit := Bare(s[pos..end]);
    }
  }

  /** The operator read at pos, as written. */
  lemma OpSound(s: string, pos: nat, op: Op, end: nat) returns (opText: string)
    requires pos <= |s| && ParseOp(s, pos) == Ok(op, end)
    ensures OpOf(opText) == Some(op) && At(s, pos, opText) && end == pos + |opText| <= |s|
    ensures OneChar(opText) && end < |s| ==> s[end] != '='
  {
    opText := s[pos..end];
    if pos + 2 <= |s| {
      var two := s[pos..pos + 2];
      assert two == [s[pos], s[pos + 1]];
    }
    if end == pos + 1 {
      assert opText == [s[pos]];
    }
  }

  lemma NameIsField(name: string)
    requires FieldOf(name).Some?
    ensures FieldName(FieldOf(name).value) == name
  {
  }

  /** The text from start to end is that of the tree c, which means e. */
  ghost predicate AtomSpan(lib: Lib, s: string, start: nat, c: AtomC, e: Expr, end: nat) {
    && AtomOk(lib, c) && AtomAst(lib, c) == e && At(s, start, ShowAtom(c)) && end == start + |ShowAtom(c)|
    && (AtomEndsBare(c) ==> Stops(s, end))
  }

  ghost predicate AndSpan(lib: Lib, s: string, start: nat, c: AndC, e: Expr, end: nat) {
    && AndOk(lib, c) && AndAst(lib, c) == e && At(s, start, ShowAnd(c)) && end == start + |ShowAnd(c)|
    && (AndEndsBare(c) ==> Stops(s, end))
  }

  ghost predicate OrSpan(lib: Lib, s: string, start: nat, c: OrC, e: Expr, end: nat) {
    && OrOk(lib, c) && OrAst(lib, c) == e && At(s, start, ShowOr(c)) && end == start + |ShowOr(c)|
    && (OrEndsBare(c) ==> Stops(s, end))
  }

  /** Five texts, one behind the other. */
  lemma FiveParts(s: string, pos: nat, a: string, b: string, c: string, d: string, e: string)
    requires At(s, pos, a) && At(s, pos + |a|, b) && At(s, pos + |a| + |b|, c)
    requires At(s, pos + |a| + |b| + |c|, d) && At(s, pos + |a| + |b| + |c| + |d|, e)
    ensures At(s, pos, a + (b + (c + (d + e))))
    ensures |a + (b + (c + (d + e)))| == |a| + |b| + |c| + |d| + |e|
  {
    AtParts(s, pos + |a| + |b| + |c|, d, e);
    AtParts(s, pos + |a| + |b|, c, d + e);
    AtParts(s, pos + |a|, b, c + (d + e));
    AtParts(s, pos, a, b + (c + (d + e)));
  }

  /** A comparison taken apart into its tokens. */
  lemma CmpTokens(lib: Lib, s: string, start: nat, e: Expr, end: nat) returns (p1: nat, p3: nat)
    requires start < |s| && SkipSpace(s, start) == start && s[start] != '('
    requires ParseCmp(lib, s, start) == Ok(e, end)
    ensures e.Cmp? && Tokens(s, start, FieldName(e.field), e.op, e.lit, p1, p3, end) && WellTyped(lib, e.field, e.lit)
  {
    p1 := WordEnd(s, start);
    p3 := ParseOp(s, SkipSpace(s, p1)).pos;
    NameIsField(s[start..p1]);
  }

  lemma CmpSound(lib: Lib, s: string, start: nat, e: Expr, end: nat) returns (c: AtomC)
    requires start < |s| && SkipSpace(s, start) == start && s[start] != '('
    requires ParseCmp(lib, s, start) == Ok(e, end)
    ensures AtomSpan(lib, s, start, c, e, end)
  {
    var p1, p3 := CmpTokens(lib, s, start, e, end);
    c := TokensTree(lib, s, start, e.field, e.op, e.lit, p1, p3, end);
  }

  lemma TokensTree(lib: Lib, s: string, start: nat, field: Field, op: Op, lit: string, p1: nat, p3: nat, end: nat) returns (c: AtomC)
    requires Tokens(s, start, FieldName(field), op, lit, p1, p3, end) && WellTyped(lib, field, lit)
    ensures AtomSpan(lib, s, start, c, Cmp(field, op, lit), end)
  {
    SliceIsAt(s, start, p1, FieldName(field));
    var gap, p2, opText := GapOpSound(s, p1, op, p3);
    var gap2, p4, litC := GapLiteralSound(s, p3, lit, end);
    c := CmpTree(lib, s, start, field, p1, gap, p2, opText, p3, gap2, p4, litC, end);
  }

  lemma GapOpSound(s: string, pos: nat, op: Op, end: nat) returns (gap: string, p: nat, opText: string)
    requires pos <= |s| && ParseOp(s, SkipSpace(s, pos)) == Ok(op, end)
    ensures Spaces(gap) && At(s, pos, gap) && p == pos + |gap|
    ensures OpOf(opText) == Some(op) && At(s, p, opText) && end == p + |opText| <= |s|
    ensures OneChar(opText) && end < |s| ==> s[end] != '='
  {
    gap := Gap(s, pos);
    p := pos + |gap|;
    opText := OpSound(s, p, op, end);
  }

  lemma GapLiteralSound(s: string, pos: nat, text: string, end: nat) returns (gap: string, p: nat, lit: LitC)
    requires pos <= |s| && ParseLiteral(s, SkipSpace(s, pos)) == Ok(text, end)
    ensures Spaces(gap) && At(s, pos, gap) && p == pos + |gap|
    ensures lit.Ok() && lit.Text() == text && At(s, p, lit.Show()) && end == p + |lit.Show()|
    ensures lit.Bare? ==> Stops(s, end)
  {
    gap := Gap(s, pos);
    p := pos + |gap|;
    SkipTwice(s, pos);
    lit := LiteralSound(s, p, text, end);
  }

  lemma CmpTree(lib: Lib, s: string, start: nat, field: Field, p1: nat, gap: string, p2: nat, opText: string, p3: nat,
                gap2: string, p4: nat, lit: LitC, end: nat) returns (c: AtomC)
    requires At(s, start, FieldName(field)) && p1 == start + |FieldName(field)|
    requires Spaces(gap) && At(s, p1, gap) && p2 == p1 + |gap|
    requires OpOf(opText).Some? && At(s, p2, opText) && p3 == p2 + |opText| <= |s|
    requires Spaces(gap2) && At(s, p3, gap2) && p4 == p3 + |gap2| && (OneChar(opText) && p3 < |s| ==> s[p3] != '=')
    requires lit.Ok() && At(s, p4, lit.Show()) && end == p4 + |lit.Show()|
    requires WellTyped(lib, field, lit.Text()) && (lit.Bare? ==> Stops(s, end))
    ensures AtomSpan(lib, s, start, c, Cmp(field, OpOf(opText).value, lit.Text()), end)
  {
    c := Comparison(field, gap, opText, gap2, lit);
    NotLengthened(s, p3, opText, gap2, lit);
    ComparisonText(s, start, c, p1, p2, p3, p4, end);
  }

  lemma ComparisonText(s: string, start: nat, c: AtomC, p1: nat, p2: nat, p3: nat, p4: nat, end: nat)
    requires c.Comparison? && At(s, start, FieldName(c.field)) && p1 == start + |FieldName(c.field)|
    requires At(s, p1, c.gap) && p2 == p1 + |c.gap| && At(s, p2, c.opText) && p3 == p2 + |c.opText|
    requires At(s, p3, c.gap2) && p4 == p3 + |c.gap2| && At(s, p4, c.lit.Show()) && end == p4 + |c.lit.Show()|
    ensures At(s, start, ShowAtom(c)) && end == start + |ShowAtom(c)|
  {
    FiveParts(s, start, FieldName(c.field), c.gap, c.opText, c.gap2, c.lit.Show());
  }

  lemma SliceIsAt(s: string, pos: nat, end: nat, t: string)
    requires pos <= end <= |s| && s[pos..end] == t
    ensures At(s, pos, t) && end == pos + |t|
  {
  }

  /** What follows a one-character operator in the text did not lengthen it. */
  lemma NotLengthened(s: string, pos: nat, opText: string, gap: string, lit: LitC)
    requires pos <= |s| && At(s, pos + |gap|, lit.Show()) && (OneChar(opText) && pos < |s| ==> s[pos] != '=')
    ensures OpKeptApart(opText, gap, lit)
  {
    if gap == "" && lit.Bare? && lit.word != "" {
      AtChar(s, pos, lit.Show(), 0);
    }
  }

  // ---------------------------------------------------------------- the three levels

  lemma {:induction false} AtomSound(lib: Lib, s: string, pos: nat, e: Expr, end: nat) returns (c: AtomC)
    requires AtomRuns(lib, s, pos, e, end)
    ensures AtomSpan(lib, s, SkipSpace(s, pos), c, e, end)
    decreases |s| - pos, 0
  {
    var start := SkipSpace(s, pos);
    SkipTwice(s, pos);
    if s[start] == '(' {
      var close := ParensInside(lib, s, start, e, end);
      var inner, q := OrSound(lib, s, start + 1, e, close);
      c := ParensTree(lib, s, start, inner, q, e, end);
    } else {
      c := CmpSound(lib, s, start, e, end);
    }
  }

  lemma ParensInside(lib: Lib, s: string, start: nat, e: Expr, end: nat) returns (q: nat)
    requires start < |s| && SkipSpace(s, start) == start && s[start] == '(' && AtomRuns(lib, s, start, e, end)
    ensures WholeRuns(lib, s, start + 1, e, q) && SkipSpace(s, q) + 1 == end <= |s| && s[end - 1] == ')'
  {
    q := ParseOr(lib, s, start + 1).pos;
  }

  lemma ParensTree(lib: Lib, s: string, start: nat, inner: OrC, q: nat, e: Expr, end: nat) returns (c: AtomC)
    requires start < |s| && s[start] == '('
    requires OrSpan(lib, s, SkipSpace(s, start + 1), inner, e, q)
    requires q <= |s| && SkipSpace(s, q) + 1 == end <= |s| && s[end - 1] == ')'
    ensures AtomSpan(lib, s, start, c, e, end)
  {
    var before := Gap(s, start + 1);
    var after := Gap(s, q);
    c := EnclosedTree(lib, s, start, before, inner, after, e, end);
  }

  lemma EnclosedTree(lib: Lib, s: string, start: nat, before: string, inner: OrC, after: string, e: Expr, end: nat) returns (c: AtomC)
    requires Spaces(before) && Spaces(after) && OrOk(lib, inner) && OrAst(lib, inner) == e
    requires At(s, start, "(") && At(s, start + 1, before) && At(s, start + 1 + |before|, ShowOr(inner))
    requires
      var p := start + 1 + |before| + |ShowOr(inner)|;
      At(s, p, after) && At(s, p + |after|, ")") && end == p + |after| + 1
    ensures AtomSpan(lib, s, start, c, e, end)
  {
    c := Parens(before, inner, after);
    FiveParts(s, start, "(", before, ShowOr(inner), after, ")");
  }

  /** What AfterKeyword found at pos, as written. */
  ghost predicate KeywordText(s: string, pos: nat, word: string, before: string, kw: string, after: string, next: nat) {
    && Spaces(before) && FoldsTo(kw, word) && Spaces(after)
    && At(s, pos, before + (kw + after)) && next == pos + |before| + |kw| + |after|
    && (before == "" ==> !Stops(s, pos))
    && (after == "" && next < |s| ==> !IsWord(s[next]))
    && SkipSpace(s, next) == next
  }

  lemma KeywordSound(s: string, pos: nat, word: string, next: nat) returns (before: string, kw: string, after: string)
    requires pos <= |s| && word in [OR, AND] && AfterKeyword(s, pos, word) == Some(next)
    ensures KeywordText(s, pos, word, before, kw, after, next)
  {
    before := Gap(s, pos);
    var p := pos + |before|;
    kw := KeywordHere(s, p, word);
    after := Gap(s, p + |word|);
    SkipTwice(s, p + |word|);
    AtParts(s, p, kw, after);
    AtParts(s, pos, before, kw + after);
    KeywordEnds(s, p, word);
    assert pos + |before| + |kw| + |after| == next;
  }

  lemma KeywordEnds(s: string, p: nat, word: string)
    requires p <= |s| && KeywordAt(s, p, word)
    ensures p + |word| <= |s| && (p + |word| < |s| ==> !IsWord(s[p + |word|]))
  {
  }

  lemma KeywordHere(s: string, pos: nat, word: string) returns (kw: string)
    requires pos <= |s| && word in [OR, AND] && KeywordAt(s, pos, word)
    ensures At(s, pos, kw) && |kw| == |word| && FoldsTo(kw, word) && !Stops(s, pos)
  {
    kw := s[pos..pos + |word|];
    assert LowerChar(kw[0]) == word[0] && kw[0] == s[pos];
  }

  lemma KeywordJoins(s: string, start: nat, left: string, before: string, kw: string, after: string, right: string)
    requires At(s, start, left) && At(s, start + |left|, before + (kw + after))
    requires At(s, start + |left| + |before| + |kw| + |after|, right)
    ensures At(s, start, left + (before + (kw + (after + right))))
  {
    var pos := start + |left|;
    assert before + (kw + (after + right)) == (before + (kw + after)) + right;
    AtParts(s, pos, before + (kw + after), right);
    AtParts(s, start, left, before + (kw + (after + right)));
  }

  /** The loop of parseAnd, entered at pos with l, ends with e at end. */
  ghost predicate AndTailRuns(lib: Lib, s: string, l: Expr, pos: nat, e: Expr, end: nat) {
    pos <= |s| && end <= |s| && Typed(lib, l) && Typed(lib, e) && AndTail(lib, s, l, pos) == Ok(e, end)
  }

  ghost predicate OrTailRuns(lib: Lib, s: string, l: Expr, pos: nat, e: Expr, end: nat) {
    pos <= |s| && end <= |s| && Typed(lib, l) && Typed(lib, e) && OrTail(lib, s, l, pos) == Ok(e, end)
  }

  /** The conjunction at pos is e, and reading it stops at end. */
  ghost predicate AndWhole(lib: Lib, s: string, pos: nat, e: Expr, end: nat) {
    pos <= |s| && end <= |s| && Typed(lib, e) && ParseAnd(lib, s, pos) == Ok(e, end)
  }

  lemma AndSplits(lib: Lib, s: string, pos: nat, e: Expr, end: nat) returns (l: Expr, p: nat)
    requires AndWhole(lib, s, pos, e, end)
    ensures AtomRuns(lib, s, pos, l, p) && AndTailRuns(lib, s, l, p, e, end) && pos < p
  {
    var r := ParseAtom(lib, s, pos);
    l, p := r.value, r.pos;
  }

  lemma AndTailSplits(lib: Lib, s: string, l: Expr, pos: nat, e: Expr, end: nat, next: nat) returns (r: Expr, p: nat)
    requires AndTailRuns(lib, s, l, pos, e, end) && AfterKeyword(s, pos, AND) == Some(next)
    ensures pos < next < p && AtomRuns(lib, s, next, r, p) && AndTailRuns(lib, s, And(l, r), p, e, end)
  {
    var atom := ParseAtom(lib, s, next);
    r, p := atom.value, atom.pos;
  }

  lemma OrSplits(lib: Lib, s: string, pos: nat, e: Expr, end: nat) returns (l: Expr, p: nat)
    requires WholeRuns(lib, s, pos, e, end)
    ensures AndWhole(lib, s, pos, l, p) && OrTailRuns(lib, s, l, p, e, end) && pos < p
  {
    var r := ParseAnd(lib, s, pos);
    l, p := r.value, r.pos;
  }

  lemma OrTailSplits(lib: Lib, s: string, l: Expr, pos: nat, e: Expr, end: nat, next: nat) returns (r: Expr, p: nat)
    requires OrTailRuns(lib, s, l, pos, e, end) && AfterKeyword(s, pos, OR) == Some(next)
    ensures pos < next < p && AndWhole(lib, s, next, r, p) && OrTailRuns(lib, s, Or(l, r), p, e, end)
  {
    var conj := ParseAnd(lib, s, next);
    r, p := conj.value, conj.pos;
  }

  lemma OrTailBeforeSpace(lib: Lib, s: string, l: Expr, pos: nat, e: Expr, end: nat)
    requires pos <= |s| && OrTailRuns(lib, s, l, SkipSpace(s, pos), e, end)
    ensures OrTailRuns(lib, s, l, pos, e, end)
  {
    OrTailFromSpace(lib, s, l, pos);
  }

  lemma {:induction false} AndSound(lib: Lib, s: string, pos: nat, e: Expr, end: nat) returns (c: AndC, q: nat)
    requires AndWhole(lib, s, pos, e, end)
    ensures AndSpan(lib, s, SkipSpace(s, pos), c, e, q) && pos < q <= |s| && SkipSpace(s, q) == end
    decreases |s| - pos, 1
  {
    var l, p := AndSplits(lib, s, pos, e, end);
    var a := AtomSound(lib, s, pos, l, p);
    c, q := AndTailSound(lib, s, SkipSpace(s, pos), OneAtom(a), l, p, e, end);
  }

  lemma {:induction false} AndTailSound(lib: Lib, s: string, start: nat, left: AndC, l: Expr, pos: nat, e: Expr, end: nat)
    returns (c: AndC, q: nat)
    requires AndSpan(lib, s, start, left, l, pos) && AndTailRuns(lib, s, l, pos, e, end)
    ensures AndSpan(lib, s, start, c, e, q) && pos <= q <= |s| && SkipSpace(s, q) == end
    decreases |s| - pos, 0
  {
    if AfterKeyword(s, pos, AND).None? {
      TailsStop(lib, s, l, pos);
      c, q := left, pos;
    } else {
      var next := AfterKeyword(s, pos, AND).value;
      var r, p := AndTailSplits(lib, s, l, pos, e, end, next);
      var before, kw, after := KeywordSound(s, pos, AND, next);
      var right := AtomSound(lib, s, next, r, p);
      var more := AndTree(lib, s, start, left, l, pos, before, kw, after, next, right, r, p);
      c, q := AndTailSound(lib, s, start, more, And(l, r), p, e, end);
    }
  }

  /** An atom that no letter or digit starts is in parentheses. */
  lemma NotRunInto(lib: Lib, s: string, next: nat, right: AtomC)
    requires AtomOk(lib, right) && At(s, next, ShowAtom(right))
    ensures next < |s| && (!IsWord(s[next]) ==> right.Parens?)
  {
    AtomStart(lib, right);
    AtChar(s, next, ShowAtom(right), 0);
  }

  lemma AndText(s: string, start: nat, left: AndC, pos: nat, before: string, kw: string, after: string, next: nat, right: AtomC)
    requires At(s, start, ShowAnd(left)) && pos == start + |ShowAnd(left)|
    requires KeywordText(s, pos, AND, before, kw, after, next) && At(s, next, ShowAtom(right))
    ensures
      var t := ShowAnd(MoreAnd(left, before, kw, after, right));
      At(s, start, t) && start + |t| == next + |ShowAtom(right)|
  {
    KeywordJoins(s, start, ShowAnd(left), before, kw, after, ShowAtom(right));
  }

  lemma AndTree(lib: Lib, s: string, start: nat, left: AndC, l: Expr, pos: nat, before: string, kw: string, after: string,
                next: nat, right: AtomC, r: Expr, end: nat) returns (c: AndC)
    requires AndSpan(lib, s, start, left, l, pos) && KeywordText(s, pos, AND, before, kw, after, next)
    requires AtomSpan(lib, s, next, right, r, end)
    ensures AndSpan(lib, s, start, c, And(l, r), end)
  {
    c := MoreAnd(left, before, kw, after, right);
    NotRunInto(lib, s, next, right);
    assert AndOk(lib, c);
    AndText(s, start, left, pos, before, kw, after, next, right);
  }

  lemma {:induction false} OrSound(lib: Lib, s: string, pos: nat, e: Expr, end: nat) returns (c: OrC, q: nat)
    requires WholeRuns(lib, s, pos, e, end)
    ensures OrSpan(lib, s, SkipSpace(s, pos), c, e, q) && q <= |s| && SkipSpace(s, q) == end == SkipSpace(s, end)
    decreases |s| - pos, 2
  {
    var l, p := OrSplits(lib, s, pos, e, end);
    var a, m := AndSound(lib, s, pos, l, p);
    OrTailBeforeSpace(lib, s, l, m, e, end);
    c, q := OrTailSound(lib, s, SkipSpace(s, pos), OneAnd(a), l, m, e, end);
    SkipTwice(s, q);
  }

  lemma {:induction false} OrTailSound(lib: Lib, s: string, start: nat, left: OrC, l: Expr, pos: nat, e: Expr, end: nat)
    returns (c: OrC, q: nat)
    requires OrSpan(lib, s, start, left, l, pos) && OrTailRuns(lib, s, l, pos, e, end)
    ensures OrSpan(lib, s, start, c, e, q) && q <= |s| && SkipSpace(s, q) == end
    decreases |s| - pos, 0
  {
    if AfterKeyword(s, pos, OR).None? {
      TailsStop(lib, s, l, pos);
      c, q := left, pos;
    } else {
      var next := AfterKeyword(s, pos, OR).value;
      var r, p := OrTailSplits(lib, s, l, pos, e, end, next);
      var before, kw, after := KeywordSound(s, pos, OR, next);
      var right, m := AndSound(lib, s, next, r, p);
      var more := OrTree(lib, s, start, left, l, pos, before, kw, after, next, right, r, m);
      OrTailBeforeSpace(lib, s, Or(l, r), m, e, end);
      c, q := OrTailSound(lib, s, start, more, Or(l, r), m, e, end);
    }
  }

  lemma OrTree(lib: Lib, s: string, start: nat, left: OrC, l: Expr, pos: nat, before: string, kw: string, after: string,
               next: nat, right: AndC, r: Expr, end: nat) returns (c: OrC)
    requires OrSpan(lib, s, start, left, l, pos) && KeywordText(s, pos, OR, before, kw, after, next)
    requires AndSpan(lib, s, next, right, r, end)
    ensures OrSpan(lib, s, start, c, Or(l, r), end)
  {
    c := MoreOr(left, before, kw, after, right);
    assert OrOk(lib, c) by {
      AndStart(lib, right);
      AtChar(s, next, ShowAnd(right), 0);
    }
    assert At(s, start, ShowOr(c)) by {
      KeywordJoins(s, start, ShowOr(left), before, kw, after, ShowAnd(right));
    }
  }

  // ---------------------------------------------------------------- the grammar is the language

  lemma ParsedRenders(lib: Lib, s: string, e: Expr) returns (c: OrC)
    requires Parse(lib, s) == Some(e)
    ensures OrOk(lib, c) && Renders(s, c) && OrAst(lib, c) == e
  {
    var end := ParseOr(lib, s, 0).pos;
    var q;
    c, q := OrSound(lib, s, 0, e, end);
    SpanRenders(lib, s, c, e, q);
  }

  lemma SpanRenders(lib: Lib, s: string, c: OrC, e: Expr, q: nat)
    requires q <= |s| && OrSpan(lib, s, SkipSpace(s, 0), c, e, q) && SkipSpace(s, q) == |s|
    ensures Renders(s, c)
  {
    var lead := Gap(s, 0);
    var trail := Gap(s, q);
    var text := ShowOr(c);
    AtParts(s, |lead|, text, trail);
    AtParts(s, 0, lead, text + trail);
    assert s == s[..|s|] == lead + (text + trail);
  }

  /** A text parses to an expression exactly when the grammar derives it with that meaning. */
  lemma ParsesExactly(lib: Lib, s: string, e: Expr)
    ensures Parse(lib, s) == Some(e) <==> exists c: OrC :: OrOk(lib, c) && Renders(s, c) && OrAst(lib, c) == e
  {
    if Parse(lib, s) == Some(e) {
      var c := ParsedRenders(lib, s, e);
    }
    if c: OrC :| OrOk(lib, c) && Renders(s, c) && OrAst(lib, c) == e {
      RenderingParses(lib, s, c);
    }
  }

  /** The grammar is unambiguous: two trees with a common text mean the same. */
  lemma Unambiguous(lib: Lib, s: string, c: OrC, d: OrC)
    requires OrOk(lib, c) && OrOk(lib, d) && Renders(s, c) && Renders(s, d)
    ensures OrAst(lib, c) == OrAst(lib, d)
  {
    RenderingParses(lib, s, c);
    RenderingParses(lib, s, d);
  }

  // ---------------------------------------------------------------- which expressions can be written

  lemma {:induction false} OrTreePrintable(lib: Lib, c: OrC)
    requires OrOk(lib, c)
    ensures Printable(OrAst(lib, c))
  {
    match c {
      case OneAnd(conj) => AndTreePrintable(lib, conj);
      case MoreOr(left, _, _, _, right) =>
        OrTreePrintable(lib, left);
        AndTreePrintable(lib, right);
    }
  }

  lemma {:induction false} AndTreePrintable(lib: Lib, c: AndC)
    requires AndOk(lib, c)
    ensures Printable(AndAst(lib, c))
  {
    match c {
      case OneAtom(atom) => AtomTreePrintable(lib, atom);
      case MoreAnd(left, _, _, _, right) =>
        AndTreePrintable(lib, left);
        AtomTreePrintable(lib, right);
    }
  }

  lemma {:induction false} AtomTreePrintable(lib: Lib, c: AtomC)
    requires AtomOk(lib, c)
    ensures Printable(AtomAst(lib, c))
  {
    if c.Parens? {
      OrTreePrintable(lib, c.inner);
    }
  }

  /** Some text stands for an expression exactly when each of its literals has a spelling. */
  lemma ExpressibleExactly(lib: Lib, e: Expr)
    requires Typed(lib, e)
    ensures Printable(e) <==> exists s :: Parse(lib, s) == Some(e)
  {
    if Printable(e) {
      PrintParse(lib, e);
    }
    if s :| Parse(lib, s) == Some(e) {
      var c := ParsedRenders(lib, s, e);
      OrTreePrintable(lib, c);
    }
  }
}
