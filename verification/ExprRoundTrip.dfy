/** Every text the grammar derives parses back to the tree it was derived from. */
module ExprRoundTrip {
  import opened Expr
  import opened ExprGrammar
  import opened GoLib

  /** The text t stands in s at pos. */
  predicate At(s: string, pos: nat, t: string) {
    pos + |t| <= |s| && s[pos..pos + |t|] == t
  }

  lemma AtParts(s: string, pos: nat, a: string, b: string)
    ensures At(s, pos, a + b) <==> At(s, pos, a) && At(s, pos + |a|, b)
  {
    var t := a + b;
    if At(s, pos, t) {
      assert s[pos..pos + |a|] == t[..|a|] && s[pos + |a|..pos + |t|] == t[|a|..];
    }
    if At(s, pos, a) && At(s, pos + |a|, b) {
      assert s[pos..pos + |t|] == s[pos..pos + |a|] + s[pos + |a|..pos + |t|];
    }
  }

  lemma AtChar(s: string, pos: nat, t: string, i: nat)
    requires At(s, pos, t) && i < |t|
    ensures s[pos + i] == t[i]
  {
    assert s[pos..pos + |t|][i] == t[i];
  }

  /** Skipping a gap of white space stops at the token behind it. */
  lemma {:induction false} SkipGap(s: string, pos: nat, gap: string)
    requires At(s, pos, gap) && Spaces(gap)
    requires pos + |gap| < |s| ==> !IsSpace(s[pos + |gap|])
    ensures SkipSpace(s, pos) == pos + |gap|
    decreases |gap|
  {
    if gap != "" {
      AtRest(s, pos, gap);
      SkipGap(s, pos + 1, gap[1..]);
    }
  }

  lemma AtRest(s: string, pos: nat, t: string)
    requires At(s, pos, t) && t != ""
    ensures s[pos] == t[0] && t[0] in t && At(s, pos + 1, t[1..])
    ensures forall c :: c in t[1..] ==> c in t
  {
    AtChar(s, pos, t, 0);
    assert t == [t[0]] + t[1..];
    AtParts(s, pos, [t[0]], t[1..]);
  }

  lemma NoGap(s: string, pos: nat)
    requires pos <= |s| && (pos < |s| ==> !IsSpace(s[pos]))
    ensures SkipSpace(s, pos) == pos
  {
  }

  lemma {:induction false} SkipStops(s: string, pos: nat)
    requires pos <= |s|
    ensures var p := SkipSpace(s, pos); p < |s| ==> !IsSpace(s[p])
    decreases |s| - pos
  {
    if pos < |s| && IsSpace(s[pos]) {
      SkipStops(s, pos + 1);
    }
  }

  lemma SkipTwice(s: string, pos: nat)
    requires pos <= |s|
    ensures SkipSpace(s, SkipSpace(s, pos)) == SkipSpace(s, pos)
  {
    SkipStops(s, pos);
    NoGap(s, SkipSpace(s, pos));
  }

  lemma {:induction false} ReadsWord(s: string, pos: nat, word: string)
    requires At(s, pos, word) && forall c :: c in word ==> IsWord(c)
    requires pos + |word| < |s| ==> !IsWord(s[pos + |word|])
    ensures WordEnd(s, pos) == pos + |word|
    decreases |word|
  {
    if word != "" {
      AtRest(s, pos, word);
      ReadsWord(s, pos + 1, word[1..]);
    }
  }

  /** An unquoted literal ends here. */
  predicate Stops(s: string, pos: nat)
    requires pos <= |s|
  {
    pos == |s| || IsSpace(s[pos]) || s[pos] == ')'
  }

  lemma ReadsLiteral(s: string, pos: nat, lit: LitC, end: nat)
    requires lit.Ok() && At(s, pos, lit.Show()) && end == pos + |lit.Show()|
    requires lit.Bare? ==> Stops(s, end)
    ensures ParseLiteral(s, pos) == Ok(lit.Text(), end)
  {
    match lit {
      case Quoted(q, body) =>
        AtParts(s, pos, [q] + body, [q]);
        AtParts(s, pos, [q], body);
        AtChar(s, pos, [q], 0);
        AtChar(s, pos + 1 + |body|, [q], 0);
        NoGap(s, pos);
        ReadsQuoted(s, pos + 1, body, q);
        AtSlice(s, pos + 1, body);
      case Bare(word) =>
        AtChar(s, pos, word, 0);
        NoGap(s, pos);
        ReadsBare(s, pos, word);
    }
  }

  lemma AtSlice(s: string, pos: nat, t: string)
    requires At(s, pos, t)
    ensures s[pos..pos + |t|] == t
  {
  }

  lemma {:induction false} ReadsQuoted(s: string, pos: nat, body: string, q: char)
    requires At(s, pos, body) && q !in body
    requires pos + |body| < |s| && s[pos + |body|] == q
    ensures QuoteEnd(s, pos, q) == pos + |body|
    decreases |body|
  {
    if body != "" {
      AtRest(s, pos, body);
      ReadsQuoted(s, pos + 1, body[1..], q);
    }
  }

  lemma {:induction false} ReadsBare(s: string, pos: nat, word: string)
    requires At(s, pos, word) && Stops(s, pos + |word|)
    requires forall c :: c in word ==> !IsSpace(c) && c != ')'
    ensures BareEnd(s, pos) == pos + |word|
    decreases |word|
  {
    if word != "" {
      AtRest(s, pos, word);
      ReadsBare(s, pos + 1, word[1..]);
    }
  }

  lemma ReadsOp(s: string, pos: nat, opText: string)
    requires At(s, pos, opText) && OpOf(opText).Some?
    requires OneChar(opText) && pos + 1 < |s| ==> s[pos + 1] != '='
    ensures ParseOp(s, pos) == Ok(OpOf(opText).value, pos + |opText|)
  {
    AtChar(s, pos, opText, 0);
    if |opText| == 2 {
      AtChar(s, pos, opText, 1);
    } else if pos + 2 <= |s| {
      var two := s[pos..pos + 2];
      assert two[0] == s[pos] && two[1] == s[pos + 1];
    }
  }

  // ---------------------------------------------------------------- keywords

  /** White space, a keyword, white space, and then a token that the keyword does not run into. */
  lemma ReadsKeyword(s: string, pos: nat, before: string, kw: string, after: string, word: string)
    requires At(s, pos, before + (kw + after)) && Spaces(before) && Spaces(after)
    requires word in [OR, AND] && FoldsTo(kw, word)
    requires
      var next := pos + |before| + |kw| + |after|;
      next < |s| && !IsSpace(s[next]) && (after == "" ==> !IsWord(s[next]))
    ensures AfterKeyword(s, pos, word) == Some(pos + |before| + |kw| + |after|)
  {
    AtParts(s, pos, before, kw + after);
    var p := pos + |before|;
    AtParts(s, p, kw, after);
    assert !IsSpace(s[p]) by {
      AtChar(s, p, kw, 0);
    }
    SkipGap(s, pos, before);
    SkipGap(s, p + |kw|, after);
    KeywordStands(s, p, kw, after, word);
  }

  lemma KeywordStands(s: string, p: nat, kw: string, after: string, word: string)
    requires At(s, p, kw) && At(s, p + |kw|, after) && Spaces(after) && FoldsTo(kw, word)
    requires
      var next := p + |kw| + |after|;
      next < |s| && (after == "" ==> !IsWord(s[next]))
    ensures KeywordAt(s, p, word)
  {
    if after != "" {
      AtChar(s, p + |kw|, after, 0);
      assert after[0] in after;
    }
  }

  /** What stands behind the white space at pos is not the keyword. */
  ghost predicate NoKeyword(s: string, pos: nat, word: string)
    requires pos <= |s|
  {
    AfterKeyword(s, pos, word).None?
  }

  /** An "or" is not an "and"; neither is a closing parenthesis nor the end. */
  lemma OtherToken(s: string, pos: nat, word: string)
    requires pos <= |s| && word in [OR, AND]
    requires
      var p := SkipSpace(s, pos);
      p == |s| || s[p] == ')' || (word == AND && LowerChar(s[p]) == 'o')
    ensures NoKeyword(s, pos, word)
  {
    var p := SkipSpace(s, pos);
    if p + |word| <= |s| {
      assert s[p..p + |word|][0] == s[p];
    }
  }

  // ---------------------------------------------------------------- trees

  lemma AtomStart(lib: Lib, c: AtomC)
    requires AtomOk(lib, c)
    ensures
      var t := ShowAtom(c);
      t != "" && !IsSpace(t[0]) && (if c.Parens? then t[0] == '(' else IsWord(t[0]))
  {
    if c.Comparison? {
      assert ShowAtom(c)[0] == FieldName(c.field)[0];
    }
  }

  lemma {:induction false} AndStart(lib: Lib, c: AndC)
    requires AndOk(lib, c)
    ensures
      var t := ShowAnd(c);
      t != "" && !IsSpace(t[0]) && (if AndStartsParen(c) then t[0] == '(' else IsWord(t[0]))
  {
    match c {
      case OneAtom(atom) => AtomStart(lib, atom);
      case MoreAnd(left, _, _, _, _) => AndStart(lib, left);
    }
  }

  lemma {:induction false} OrStart(lib: Lib, c: OrC)
    requires OrOk(lib, c)
    ensures ShowOr(c) != "" && !IsSpace(ShowOr(c)[0])
  {
    match c {
      case OneAnd(conj) => AndStart(lib, conj);
      case MoreOr(left, _, _, _, _) => OrStart(lib, left);
    }
  }

  /** The field name is read whole, up to the gap or the operator behind it. */
  lemma ReadsField(s: string, pos: nat, name: string, rest: string)
    requires At(s, pos, name) && At(s, pos + |name|, rest)
    requires name != "" && forall c :: c in name ==> IsWord(c) && !IsSpace(c)
    requires rest != "" && !IsWord(rest[0])
    ensures SkipSpace(s, pos) == pos && WordEnd(s, pos) == pos + |name| && s[pos..pos + |name|] == name
  {
    AtChar(s, pos, name, 0);
    AtChar(s, pos + |name|, rest, 0);
    NoGap(s, pos);
    ReadsWord(s, pos, name);
  }

  /** A gap and the operator behind it, which the text that follows does not extend. */
  lemma ReadsGapOp(s: string, pos: nat, gap: string, opText: string, rest: string)
    requires Spaces(gap) && OpOf(opText).Some?
    requires At(s, pos, gap + (opText + rest))
    requires OneChar(opText) && rest != "" ==> rest[0] != '='
    requires rest != ""
    ensures ParseOp(s, SkipSpace(s, pos)) == Ok(OpOf(opText).value, pos + |gap| + |opText|)
    ensures At(s, pos + |gap| + |opText|, rest)
  {
    var p := pos + |gap|;
    AtParts(s, pos, gap, opText + rest);
    AtParts(s, p, opText, rest);
    OpStarts(opText);
    AtChar(s, p, opText, 0);
    SkipGap(s, pos, gap);
    AtChar(s, p + |opText|, rest, 0);
    if OneChar(opText) {
      assert p + |opText| == p + 1;
    }
    ReadsOp(s, p, opText);
  }

  lemma OpStarts(opText: string)
    requires OpOf(opText).Some?
    ensures opText != "" && !IsSpace(opText[0]) && (OneChar(opText) ==> |opText| == 1)
  {
  }

  lemma ReadsGapLiteral(s: string, pos: nat, gap: string, lit: LitC, end: nat)
    requires Spaces(gap) && lit.Ok() && At(s, pos, gap + lit.Show()) && end == pos + |gap + lit.Show()|
    requires lit.Bare? ==> Stops(s, end)
    ensures ParseLiteral(s, SkipSpace(s, pos)) == Ok(lit.Text(), end)
  {
    var p := pos + |gap|;
    AtParts(s, pos, gap, lit.Show());
    assert end == p + |lit.Show()|;
    AtChar(s, p, lit.Show(), 0);
    assert !IsSpace(s[p]);
    SkipGap(s, pos, gap);
    ReadsLiteral(s, p, lit, end);
  }

  /** The tokens of a comparison, read one after another. */
  ghost predicate Tokens(s: string, pos: nat, name: string, op: Op, lit: string, p1: nat, p3: nat, end: nat) {
    && pos < p1 <= |s| && p3 <= |s| && s[pos] != '('
    && SkipSpace(s, pos) == pos && WordEnd(s, pos) == p1 && s[pos..p1] == name
    && ParseOp(s, SkipSpace(s, p1)) == Ok(op, p3)
    && ParseLiteral(s, SkipSpace(s, p3)) == Ok(lit, end)
  }

  lemma ReadsTokens(s: string, pos: nat, name: string, gap: string, opText: string, gap2: string, lit: LitC, end: nat)
    returns (p1: nat, p3: nat)
    requires name != "" && forall c :: c in name ==> IsWord(c) && !IsSpace(c)
    requires Spaces(gap) && Spaces(gap2) && OpOf(opText).Some? && lit.Ok() && OpKeptApart(opText, gap2, lit)
    requires At(s, pos, name + (gap + (opText + (gap2 + lit.Show()))))
    requires end == pos + |name + (gap + (opText + (gap2 + lit.Show())))|
    requires lit.Bare? ==> Stops(s, end)
    ensures Tokens(s, pos, name, OpOf(opText).value, lit.Text(), p1, p3, end)
  {
    var rest := gap + (opText + (gap2 + lit.Show()));
    p1 := pos + |name|;
    AtParts(s, pos, name, rest);
    AtChar(s, pos, name, 0);
    RestStarts(gap, opText, gap2 + lit.Show());
    ReadsField(s, pos, name, rest);
    p3 := ReadsOpAndLiteral(s, p1, gap, opText, gap2, lit, end);
  }

  lemma ReadsOpAndLiteral(s: string, pos: nat, gap: string, opText: string, gap2: string, lit: LitC, end: nat)
    returns (p3: nat)
    requires Spaces(gap) && Spaces(gap2) && OpOf(opText).Some? && lit.Ok() && OpKeptApart(opText, gap2, lit)
    requires At(s, pos, gap + (opText + (gap2 + lit.Show())))
    requires end == pos + |gap + (opText + (gap2 + lit.Show()))|
    requires lit.Bare? ==> Stops(s, end)
    ensures p3 <= |s| && ParseOp(s, SkipSpace(s, pos)) == Ok(OpOf(opText).value, p3)
    ensures ParseLiteral(s, SkipSpace(s, p3)) == Ok(lit.Text(), end)
  {
    var tail := gap2 + lit.Show();
    p3 := pos + |gap| + |opText|;
    TailStarts(gap2, lit, opText);
    ReadsGapOp(s, pos, gap, opText, tail);
    ReadsGapLiteral(s, p3, gap2, lit, end);
  }

  lemma TokensParse(lib: Lib, s: string, pos: nat, field: Field, op: Op, lit: string, p1: nat, p3: nat, end: nat)
    requires Tokens(s, pos, FieldName(field), op, lit, p1, p3, end) && WellTyped(lib, field, lit)
    ensures ParseAtom(lib, s, pos) == Ok(Cmp(field, op, lit), end)
  {
  }

  lemma ComparisonParses(lib: Lib, s: string, pos: nat, c: AtomC, end: nat)
    requires c.Comparison? && AtomOk(lib, c) && At(s, pos, ShowAtom(c)) && end == pos + |ShowAtom(c)|
    requires AtomEndsBare(c) ==> Stops(s, end)
    ensures ParseAtom(lib, s, pos) == Ok(AtomAst(lib, c), end)
  {
    var p1, p3 := ReadsTokens(s, pos, FieldName(c.field), c.gap, c.opText, c.gap2, c.lit, end);
    TokensParse(lib, s, pos, c.field, OpOf(c.opText).value, c.lit.Text(), p1, p3, end);
  }

  lemma TailStarts(gap2: string, lit: LitC, opText: string)
    requires Spaces(gap2) && lit.Ok() && OpKeptApart(opText, gap2, lit)
    ensures
      var tail := gap2 + lit.Show();
      tail != "" && (OneChar(opText) ==> tail[0] != '=')
  {
    if gap2 != "" {
      assert gap2[0] in gap2;
    }
  }

  lemma RestStarts(gap: string, opText: string, tail: string)
    requires Spaces(gap) && OpOf(opText).Some?
    ensures
      var rest := gap + (opText + tail);
      rest != "" && !IsWord(rest[0])
  {
    if gap != "" {
      assert gap[0] in gap;
    } else {
      assert (gap + (opText + tail))[0] == opText[0];
    }
  }

  // ---------------------------------------------------------------- one step of each parsing function

  /** The atom at pos is e and ends at end. */
  ghost predicate AtomRuns(lib: Lib, s: string, pos: nat, e: Expr, end: nat) {
    pos <= |s| && end <= |s| && Typed(lib, e) && ParseAtom(lib, s, pos) == Ok(e, end)
  }

  /** Reading from pos is going on with the loop of parseAnd at end, with e on the left. */
  ghost predicate AndRuns(lib: Lib, s: string, pos: nat, e: Expr, end: nat) {
    pos <= |s| && end <= |s| && Typed(lib, e) && ParseAnd(lib, s, pos) == AndTail(lib, s, e, end)
  }

  /** Reading from pos is going on with the loop of parseOr behind the gap at end. */
  ghost predicate OrRuns(lib: Lib, s: string, pos: nat, e: Expr, end: nat) {
    pos <= |s| && end <= |s| && Typed(lib, e) && ParseOr(lib, s, pos) == OrTail(lib, s, e, end)
  }

  /** The whole disjunction at pos is e, and reading it stops at end. */
  ghost predicate WholeRuns(lib: Lib, s: string, pos: nat, e: Expr, end: nat) {
    pos <= |s| && end <= |s| && Typed(lib, e) && ParseOr(lib, s, pos) == Ok(e, end)
  }

  /** The pieces of `left before kw after right`, and what reading the keyword does. */
  ghost predicate KeywordBetween(s: string, p1: nat, before: string, p2: nat, word: string) {
    && p1 <= |s| && word != ""
    && AfterKeyword(s, p1, word) == Some(p2)
    && (before != "" ==> Stops(s, p1))
    && SkipSpace(s, p1) < |s| && LowerChar(s[SkipSpace(s, p1)]) == word[0]
  }

  lemma AtomIsAnd(lib: Lib, s: string, pos: nat, e: Expr, end: nat)
    requires AtomRuns(lib, s, pos, e, end)
    ensures AndRuns(lib, s, pos, e, end)
  {
  }

  lemma AndIsOr(lib: Lib, s: string, pos: nat, e: Expr, end: nat)
    requires AndRuns(lib, s, pos, e, end) && NoKeyword(s, end, AND)
    ensures OrRuns(lib, s, pos, e, end)
  {
    TailsStop(lib, s, e, end);
    OrTailFromSpace(lib, s, e, end);
  }

  lemma AndGoesOn(lib: Lib, s: string, pos: nat, left: Expr, p1: nat, before: string, p2: nat, right: Expr, end: nat)
    requires AndRuns(lib, s, pos, left, p1) && AtomRuns(lib, s, p2, right, end)
    requires KeywordBetween(s, p1, before, p2, AND)
    ensures AndRuns(lib, s, pos, And(left, right), end)
  {
    AndTailGoes(lib, s, left, p1, p2, right, end);
  }

  lemma OrGoesOn(lib: Lib, s: string, pos: nat, left: Expr, p1: nat, before: string, p2: nat, right: Expr, end: nat)
    requires OrRuns(lib, s, pos, left, p1) && AndRuns(lib, s, p2, right, end)
    requires KeywordBetween(s, p1, before, p2, OR) && NoKeyword(s, end, AND)
    ensures OrRuns(lib, s, pos, Or(left, right), end)
  {
    TailsStop(lib, s, right, end);
    OrTailGoes(lib, s, left, p1, p2, right, SkipSpace(s, end));
    OrTailFromSpace(lib, s, Or(left, right), end);
  }

  lemma OrEnds(lib: Lib, s: string, pos: nat, e: Expr, end: nat)
    requires OrRuns(lib, s, pos, e, end) && NoKeyword(s, end, OR)
    ensures WholeRuns(lib, s, pos, e, SkipSpace(s, end))
  {
    TailsStop(lib, s, e, end);
  }

  lemma AndTailGoes(lib: Lib, s: string, left: Expr, pos: nat, p: nat, right: Expr, end: nat)
    requires pos <= |s| && Typed(lib, left)
    requires AfterKeyword(s, pos, AND) == Some(p) && ParseAtom(lib, s, p) == Ok(right, end)
    ensures Typed(lib, right) && end <= |s|
    ensures AndTail(lib, s, left, pos) == AndTail(lib, s, And(left, right), end)
  {
  }

  lemma OrTailGoes(lib: Lib, s: string, left: Expr, pos: nat, p: nat, right: Expr, end: nat)
    requires pos <= |s| && Typed(lib, left)
    requires AfterKeyword(s, pos, OR) == Some(p) && ParseAnd(lib, s, p) == Ok(right, end)
    ensures Typed(lib, right) && end <= |s|
    ensures OrTail(lib, s, left, pos) == OrTail(lib, s, Or(left, right), end)
  {
  }

  lemma TailsStop(lib: Lib, s: string, e: Expr, pos: nat)
    requires pos <= |s| && Typed(lib, e)
    ensures NoKeyword(s, pos, AND) ==> AndTail(lib, s, e, pos) == Ok(e, SkipSpace(s, pos))
    ensures NoKeyword(s, pos, OR) ==> OrTail(lib, s, e, pos) == Ok(e, SkipSpace(s, pos))
  {
  }

  lemma OrTailFromSpace(lib: Lib, s: string, e: Expr, pos: nat)
    requires pos <= |s| && Typed(lib, e)
    ensures OrTail(lib, s, e, SkipSpace(s, pos)) == OrTail(lib, s, e, pos)
  {
    SkipTwice(s, pos);
    KeywordFromSpace(s, pos);
  }

  lemma KeywordFromSpace(s: string, pos: nat)
    requires pos <= |s|
    ensures AfterKeyword(s, SkipSpace(s, pos), OR) == AfterKeyword(s, pos, OR)
  {
    SkipTwice(s, pos);
  }

  lemma ParensGo(lib: Lib, s: string, pos: nat, e: Expr, close: nat)
    requires pos < |s| && SkipSpace(s, pos) == pos && s[pos] == '('
    requires WholeRuns(lib, s, pos + 1, e, close)
    requires close < |s| && s[close] == ')'
    ensures AtomRuns(lib, s, pos, e, close + 1)
  {
    NoGap(s, close);
  }

  /** Leading white space does not matter. */
  lemma WholeFromSpace(lib: Lib, s: string, pos: nat, e: Expr, end: nat)
    requires pos <= |s| && WholeRuns(lib, s, SkipSpace(s, pos), e, end)
    ensures WholeRuns(lib, s, pos, e, end)
  {
    FromSpace(lib, s, pos);
  }

  lemma FromSpace(lib: Lib, s: string, pos: nat)
    requires pos <= |s|
    ensures ParseOr(lib, s, pos) == ParseOr(lib, s, SkipSpace(s, pos))
  {
    AtomFromSpace(lib, s, pos);
    assert ParseAnd(lib, s, pos) == ParseAnd(lib, s, SkipSpace(s, pos));
  }

  lemma AtomFromSpace(lib: Lib, s: string, pos: nat)
    requires pos <= |s|
    ensures ParseAtom(lib, s, pos) == ParseAtom(lib, s, SkipSpace(s, pos))
  {
    SkipTwice(s, pos);
  }

  // ---------------------------------------------------------------- where the tokens stand

  lemma ParensParts(s: string, pos: nat, before: string, inner: string, after: string)
    requires At(s, pos, "(" + (before + (inner + (after + ")"))))
    ensures
      var p1 := pos + 1 + |before|;
      var p2 := p1 + |inner|;
      && At(s, pos, "(") && At(s, pos + 1, before) && At(s, p1, inner)
      && At(s, p2, after) && At(s, p2 + |after|, ")")
  {
    var p1 := pos + 1 + |before|;
    var p2 := p1 + |inner|;
    AtParts(s, pos, "(", before + (inner + (after + ")")));
    AtParts(s, pos + 1, before, inner + (after + ")"));
    AtParts(s, p1, inner, after + ")");
    AtParts(s, p2, after, ")");
  }

  lemma GapThenToken(s: string, pos: nat, gap: string, token: string)
    requires Spaces(gap) && At(s, pos, gap) && At(s, pos + |gap|, token)
    requires token != "" && !IsSpace(token[0])
    ensures SkipSpace(s, pos) == pos + |gap|
  {
    AtChar(s, pos + |gap|, token, 0);
    SkipGap(s, pos, gap);
  }

  lemma GapThenClose(s: string, pos: nat, after: string)
    requires Spaces(after) && At(s, pos, after) && At(s, pos + |after|, ")")
    ensures
      var close := pos + |after|;
      && SkipSpace(s, pos) == close < |s| && s[close] == ')' && Stops(s, pos)
      && NoKeyword(s, pos, AND) && NoKeyword(s, pos, OR)
  {
    AtChar(s, pos + |after|, ")", 0);
    if after != "" {
      AtChar(s, pos, after, 0);
    }
    SkipGap(s, pos, after);
    OtherToken(s, pos, AND);
    OtherToken(s, pos, OR);
  }

  lemma KeywordParts(s: string, pos: nat, left: string, before: string, kw: string, after: string, right: string)
    requires At(s, pos, left + (before + (kw + (after + right))))
    ensures
      var p1 := pos + |left|;
      && At(s, pos, left) && At(s, p1, before + (kw + after))
      && At(s, p1 + |before| + |kw| + |after|, right)
  {
    var p1 := pos + |left|;
    assert before + (kw + (after + right)) == (before + (kw + after)) + right;
    AtParts(s, pos, left, before + (kw + (after + right)));
    AtParts(s, p1, before + (kw + after), right);
  }

  lemma KeywordLayout(s: string, p1: nat, before: string, kw: string, after: string, right: string, word: string)
    requires At(s, p1, before + (kw + after)) && At(s, p1 + |before| + |kw| + |after|, right)
    requires Spaces(before) && Spaces(after) && word in [OR, AND] && FoldsTo(kw, word)
    requires right != "" && !IsSpace(right[0]) && (after == "" ==> !IsWord(right[0]))
    ensures KeywordBetween(s, p1, before, p1 + |before| + |kw| + |after|, word)
  {
    AtChar(s, p1 + |before| + |kw| + |after|, right, 0);
    ReadsKeyword(s, p1, before, kw, after, word);
    AtParts(s, p1, before, kw + after);
    AtParts(s, p1 + |before|, kw, after);
    AtChar(s, p1 + |before|, kw, 0);
    if before != "" {
      AtChar(s, p1, before, 0);
    }
    SkipGap(s, p1, before);
  }

  lemma OrIsNotAnd(s: string, pos: nat, before: string, p2: nat)
    requires KeywordBetween(s, pos, before, p2, OR)
    ensures NoKeyword(s, pos, AND)
  {
    OtherToken(s, pos, AND);
  }

  // ---------------------------------------------------------------- the three levels

  /** The atom at pos is read up to its end. */
  lemma {:induction false} AtomParses(lib: Lib, s: string, pos: nat, c: AtomC, end: nat)
    requires AtomOk(lib, c) && At(s, pos, ShowAtom(c)) && end == pos + |ShowAtom(c)|
    requires AtomEndsBare(c) ==> Stops(s, end)
    ensures AtomRuns(lib, s, pos, AtomAst(lib, c), end)
    decreases c
  {
    match c {
      case Comparison(_, _, _, _, _) =>
        ComparisonParses(lib, s, pos, c, end);
      case Parens(before, inner, after) =>
        var p := pos + 1 + |before| + |ShowOr(inner)|;
        ParensParts(s, pos, before, ShowOr(inner), after);
        GapThenClose(s, p, after);
        InnerParses(lib, s, pos + 1, before, inner, p);
        Enclose(lib, s, pos, p, after, OrAst(lib, inner));
        assert p + |after| + 1 == end;
    }
  }

  lemma Enclose(lib: Lib, s: string, pos: nat, p: nat, after: string, e: Expr)
    requires At(s, pos, "(") && Spaces(after) && At(s, p, after) && At(s, p + |after|, ")")
    requires WholeRuns(lib, s, pos + 1, e, SkipSpace(s, p))
    ensures AtomRuns(lib, s, pos, e, p + |after| + 1)
  {
    GapThenClose(s, p, after);
    AtChar(s, pos, "(", 0);
    ParensGo(lib, s, pos, e, p + |after|);
  }

  lemma {:induction false} InnerParses(lib: Lib, s: string, pos: nat, before: string, inner: OrC, end: nat)
    requires OrOk(lib, inner) && Spaces(before) && At(s, pos, before) && At(s, pos + |before|, ShowOr(inner))
    requires end == pos + |before| + |ShowOr(inner)| && Stops(s, end)
    requires NoKeyword(s, end, AND) && NoKeyword(s, end, OR)
    ensures WholeRuns(lib, s, pos, OrAst(lib, inner), SkipSpace(s, end))
    decreases inner, 1
  {
    OrStart(lib, inner);
    GapThenToken(s, pos, before, ShowOr(inner));
    OrParses(lib, s, pos + |before|, inner, end);
    OrEnds(lib, s, pos + |before|, OrAst(lib, inner), end);
    WholeFromSpace(lib, s, pos, OrAst(lib, inner), SkipSpace(s, end));
  }

  lemma {:induction false} AndParses(lib: Lib, s: string, pos: nat, c: AndC, end: nat)
    requires AndOk(lib, c) && At(s, pos, ShowAnd(c)) && end == pos + |ShowAnd(c)|
    requires AndEndsBare(c) ==> Stops(s, end)
    ensures AndRuns(lib, s, pos, AndAst(lib, c), end)
    decreases c
  {
    match c {
      case OneAtom(atom) =>
        AtomParses(lib, s, pos, atom, end);
        AtomIsAnd(lib, s, pos, AtomAst(lib, atom), end);
      case MoreAnd(left, before, kw, after, right) =>
        var p1 := pos + |ShowAnd(left)|;
        var p2 := p1 + |before| + |kw| + |after|;
        KeywordParts(s, pos, ShowAnd(left), before, kw, after, ShowAtom(right));
        assert KeywordBetween(s, p1, before, p2, AND) by {
          AndKeyword(lib, s, p1, before, kw, after, right, p2);
        }
        var l, r := AndAst(lib, left), AtomAst(lib, right);
        assert AndRuns(lib, s, pos, l, p1) by {
          AndParses(lib, s, pos, left, p1);
        }
        assert AtomRuns(lib, s, p2, r, end) by {
          AtomParses(lib, s, p2, right, end);
        }
        AndGoesOn(lib, s, pos, l, p1, before, p2, r, end);
    }
  }

  lemma AndKeyword(lib: Lib, s: string, p1: nat, before: string, kw: string, after: string, right: AtomC, p2: nat)
    requires p2 == p1 + |before| + |kw| + |after| && At(s, p1, before + (kw + after)) && At(s, p2, ShowAtom(right))
    requires Spaces(before) && Spaces(after) && FoldsTo(kw, AND)
    requires AtomOk(lib, right) && (after == "" ==> right.Parens?)
    ensures KeywordBetween(s, p1, before, p2, AND)
  {
    AtomStart(lib, right);
    KeywordLayout(s, p1, before, kw, after, ShowAtom(right), AND);
  }

  lemma OrKeyword(lib: Lib, s: string, p1: nat, before: string, kw: string, after: string, right: AndC, p2: nat)
    requires p2 == p1 + |before| + |kw| + |after| && At(s, p1, before + (kw + after)) && At(s, p2, ShowAnd(right))
    requires Spaces(before) && Spaces(after) && FoldsTo(kw, OR)
    requires AndOk(lib, right) && (after == "" ==> AndStartsParen(right))
    ensures KeywordBetween(s, p1, before, p2, OR)
    ensures NoKeyword(s, p1, AND)
  {
    AndStart(lib, right);
    KeywordLayout(s, p1, before, kw, after, ShowAnd(right), OR);
    OrIsNotAnd(s, p1, before, p2);
  }

  lemma {:induction false} OrParses(lib: Lib, s: string, pos: nat, c: OrC, end: nat)
    requires OrOk(lib, c) && At(s, pos, ShowOr(c)) && end == pos + |ShowOr(c)|
    requires OrEndsBare(c) ==> Stops(s, end)
    requires NoKeyword(s, end, AND)
    ensures OrRuns(lib, s, pos, OrAst(lib, c), end)
    decreases c, 0
  {
    match c {
      case OneAnd(conj) =>
        AndParses(lib, s, pos, conj, end);
        AndIsOr(lib, s, pos, AndAst(lib, conj), end);
      case MoreOr(left, before, kw, after, right) =>
        var p1 := pos + |ShowOr(left)|;
        var p2 := p1 + |before| + |kw| + |after|;
        OrLayout(lib, s, pos, left, before, kw, after, right, end, p1, p2);
        var l, r := OrAst(lib, left), AndAst(lib, right);
        assert OrRuns(lib, s, pos, l, p1) by {
          OrParses(lib, s, pos, left, p1);
        }
        assert AndRuns(lib, s, p2, r, end) by {
          AndParses(lib, s, p2, right, end);
        }
        OrGoesOn(lib, s, pos, l, p1, before, p2, r, end);
    }
  }

  lemma OrLayout(lib: Lib, s: string, pos: nat, left: OrC, before: string, kw: string, after: string, right: AndC, end: nat, p1: nat, p2: nat)
    requires OrOk(lib, MoreOr(left, before, kw, after, right))
    requires At(s, pos, ShowOr(left) + (before + (kw + (after + ShowAnd(right)))))
    requires p1 == pos + |ShowOr(left)| && p2 == p1 + |before| + |kw| + |after| && end == p2 + |ShowAnd(right)|
    ensures At(s, pos, ShowOr(left)) && (OrEndsBare(left) ==> Stops(s, p1))
    ensures KeywordBetween(s, p1, before, p2, OR) && NoKeyword(s, p1, AND)
    ensures At(s, p2, ShowAnd(right))
  {
    KeywordParts(s, pos, ShowOr(left), before, kw, after, ShowAnd(right));
    OrKeyword(lib, s, p1, before, kw, after, right, p2);
  }

  /** Whatever renders a tree parses, completely, to what the tree means. */
  lemma RenderingParses(lib: Lib, s: string, c: OrC)
    requires OrOk(lib, c) && Renders(s, c)
    ensures Parse(lib, s) == Some(OrAst(lib, c))
  {
    var lead: string, trail: string :| Spaces(lead) && Spaces(trail) && s == lead + (ShowOr(c) + trail);
    LayoutParts(s, lead, ShowOr(c), trail);
    var p2 := |lead| + |ShowOr(c)|;
    GapThenEnd(s, p2, trail);
    InnerParses(lib, s, 0, lead, c, p2);
    WholeIsParsed(lib, s, OrAst(lib, c));
  }

  lemma LayoutParts(s: string, lead: string, text: string, trail: string)
    requires s == lead + (text + trail)
    ensures At(s, 0, lead) && At(s, |lead|, text) && At(s, |lead| + |text|, trail)
    ensures |lead| + |text| + |trail| == |s|
  {
    AtParts(s, 0, lead, text + trail);
    AtParts(s, |lead|, text, trail);
  }

  lemma WholeIsParsed(lib: Lib, s: string, e: Expr)
    requires WholeRuns(lib, s, 0, e, |s|)
    ensures Parse(lib, s) == Some(e)
  {
    NoGap(s, |s|);
  }

  lemma GapThenEnd(s: string, pos: nat, gap: string)
    requires Spaces(gap) && At(s, pos, gap) && pos + |gap| == |s|
    ensures SkipSpace(s, pos) == |s| && Stops(s, pos)
    ensures NoKeyword(s, pos, AND) && NoKeyword(s, pos, OR)
  {
    if gap != "" {
      AtChar(s, pos, gap, 0);
    }
    SkipGap(s, pos, gap);
    OtherToken(s, pos, AND);
    OtherToken(s, pos, OR);
  }
}
