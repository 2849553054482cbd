/** What trimming white space means, in terms of the encoded runes alone. */
module Trimming {
  import opened Text

  /** White space, by code point: tab to return, blank, and the spaces and separators outside ASCII. */
  predicate SpaceRune(u: int) {
    || 9 <= u <= 13 || u == 32 || u == 0x85 || u == 0xA0 || u == 0x1680 || 0x2000 <= u <= 0x200A
    || u == 0x2028 || u == 0x2029 || u == 0x202F || u == 0x205F || u == 0x3000
  }

  /** The UTF-8 encoding of a code point below U+10000. */
  function Utf8(u: int): string
    requires 0 <= u < 0x10000
  {
    if u < 0x80 then [u as char]
    else if u < 0x800 then [(0xC0 + u / 64) as char, (0x80 + u % 64) as char]
    else [(0xE0 + u / 4096) as char, (0x80 + u / 64 % 64) as char, (0x80 + u % 64) as char]
  }

  /** A white-space rune as bytes. */
  ghost predicate Space(w: string) {
    exists u :: SpaceRune(u) && w == Utf8(u)
  }

  /** Some white-space runes, one after another. */
  ghost predicate OnlySpaces(s: string)
    decreases |s|
  {
    s == "" || exists w :: Space(w) && w != "" && w <= s && OnlySpaces(s[|w|..])
  }

  /** No white-space rune stands at either end. */
  ghost predicate Tidy(r: string) {
    && (forall w :: Space(w) ==> !(w <= r))
    && (forall w :: Space(w) ==> !EndsWith(r, w))
  }

  ghost predicate BetweenSpaces(s: string, r: string) {
    exists a, b :: OnlySpaces(a) && OnlySpaces(b) && s == a + r + b
  }

  /** r is what is left of s without white space at either end. */
  ghost predicate Leaves(s: string, r: string) {
    Tidy(r) && BetweenSpaces(s, r)
  }

  predicate EndsWith(s: string, w: string) {
    |w| <= |s| && s[|s| - |w|..] == w
  }

  // ---------------------------------------------------------------- one rune

  /** The spelling of a white-space rune, by its length. */
  predicate SpaceWord(w: string) {
    || (|w| == 1 && AsciiSpace(w[0]))
    || (|w| == 2 && TwoByteSpace(w[0], w[1]))
    || (|w| == 3 && ThreeByteSpace(w[0], w[1], w[2]))
  }

  lemma SpacesAreWords(w: string)
    ensures Space(w) <==> SpaceWord(w)
  {
    if SpaceWord(w) {
      var u := Decoded(w);
    }
    if u :| SpaceRune(u) && w == Utf8(u) {
      EncodedIsWord(u);
    }
  }

  lemma Decoded(w: string) returns (u: int)
    requires SpaceWord(w)
    ensures SpaceRune(u) && w == Utf8(u)
  {
    if |w| == 1 {
      u := w[0] as int;
    } else if |w| == 2 {
      u := (w[0] as int - 0xC0) * 64 + (w[1] as int - 0x80);
    } else {
      u := (w[0] as int - 0xE0) * 4096 + (w[1] as int - 0x80) * 64 + (w[2] as int - 0x80);
    }
  }

  lemma EncodedIsWord(u: int)
    requires SpaceRune(u)
    ensures SpaceWord(Utf8(u))
  {
  }

  lemma FrontIsSpace(s: string)
    ensures FrontSpace(s) > 0 ==> Space(s[..FrontSpace(s)])
  {
    SpacesAreWords(s[..FrontSpace(s)]);
  }

  lemma SpaceInFront(s: string, w: string)
    requires Space(w) && w <= s
    ensures w != "" && FrontSpace(s) == |w|
  {
    SpacesAreWords(w);
    WordInFront(s, w);
  }

  lemma WordInFront(s: string, w: string)
    requires SpaceWord(w) && w <= s
    ensures w != "" && FrontSpace(s) == |w|
  {
  }

  lemma BackIsSpace(s: string)
    ensures BackSpace(s) > 0 ==> Space(s[|s| - BackSpace(s)..])
  {
    SpacesAreWords(s[|s| - BackSpace(s)..]);
  }

  lemma SpaceAtBack(s: string, w: string)
    requires Space(w) && EndsWith(s, w)
    ensures w != "" && BackSpace(s) == |w|
  {
    SpacesAreWords(w);
    WordAtBack(s, w);
  }

  lemma WordAtBack(s: string, w: string)
    requires SpaceWord(w) && EndsWith(s, w)
    ensures w != "" && BackSpace(s) == |w|
  {
    var n := |s| - |w|;
    assert forall i :: 0 <= i < |w| ==> s[n + i] == w[i];
  }

  // ---------------------------------------------------------------- several runes

  /** A text that trimming from the front uses up. */
  predicate Blank(a: string)
    decreases |a|
  {
    a == "" || (FrontSpace(a) > 0 && Blank(a[FrontSpace(a)..]))
  }

  lemma {:induction false} SpacesAreBlank(a: string)
    ensures OnlySpaces(a) <==> Blank(a)
    decreases |a|
  {
    if a != "" {
      var n := FrontSpace(a);
      FrontIsSpace(a);
      if n > 0 {
        SpacesAreBlank(a[n..]);
        assert |a[..n]| == n && a[..n] <= a;
      }
      if OnlySpaces(a) {
        var w :| Space(w) && w != "" && w <= a && OnlySpaces(a[|w|..]);
        SpaceInFront(a, w);
      }
    }
  }

  lemma FrontStays(a: string, t: string)
    requires FrontSpace(a) > 0
    ensures FrontSpace(a + t) == FrontSpace(a)
  {
    WordInFront(a + t, a[..FrontSpace(a)]);
  }

  lemma BackStays(t: string, b: string)
    requires BackSpace(b) > 0
    ensures BackSpace(t + b) == BackSpace(b)
  {
    var w := b[|b| - BackSpace(b)..];
    assert EndsWith(t + b, w);
    WordAtBack(t + b, w);
  }

  lemma OneRune(a: string)
    requires FrontSpace(a) == |a| > 0 || BackSpace(a) == |a| > 0
    ensures FrontSpace(a) == |a| == BackSpace(a)
  {
  }

  /** No rune reaches from a text that has none in front into white space behind it. */
  lemma NoRuneAcross(r: string, b: string)
    requires r != "" && FrontSpace(r) == 0 && (b == "" || FrontSpace(b) > 0)
    ensures FrontSpace(r + b) == 0
  {
  }

  lemma {:induction false} BlankGrows(a: string, w: string)
    requires Blank(a) && FrontSpace(w) == |w| > 0
    ensures Blank(a + w)
    decreases |a|
  {
    var t := a + w;
    if a == "" {
      assert t == w && w[|w|..] == "";
    } else {
      var n := FrontSpace(a);
      FrontStays(a, w);
      BlankGrows(a[n..], w);
      assert t[n..] == a[n..] + w;
    }
  }

  lemma {:induction false} BlankEnd(a: string)
    requires Blank(a) && a != ""
    ensures BackSpace(a) > 0 && Blank(a[..|a| - BackSpace(a)])
    decreases |a|
  {
    var n := FrontSpace(a);
    var rest := a[n..];
    if rest == "" {
      OneRune(a);
      assert a[..0] == "";
    } else {
      BlankEnd(rest);
      var k := BackSpace(rest);
      BackStays(a[..n], rest);
      assert a == a[..n] + rest;
      var front, less := a[..|a| - k], rest[..|rest| - k];
      assert front == a[..n] + less && front[n..] == less;
      FrontStays(a[..n], less);
      FrontOfRune(a, n);
    }
  }

  lemma FrontOfRune(a: string, n: nat)
    requires n == FrontSpace(a) > 0
    ensures FrontSpace(a[..n]) == n
  {
  }

  // ---------------------------------------------------------------- what trimming drops

  lemma {:induction false} TrimLeftDrops(s: string) returns (a: string)
    ensures Blank(a) && s == a + TrimLeft(s)
    decreases |s|
  {
    var n := FrontSpace(s);
    if n == 0 {
      a := "";
    } else {
      var more := TrimLeftDrops(s[n..]);
      a := s[..n] + more;
      FrontOfRune(s, n);
      FrontStays(s[..n], more);
      assert a[n..] == more;
    }
  }

  lemma {:induction false} TrimRightDrops(s: string) returns (b: string)
    ensures Blank(b) && s == TrimRight(s) + b
    decreases |s|
  {
    var n := |s| - BackSpace(s);
    if n == |s| {
      b := "";
    } else {
      var more := TrimRightDrops(s[..n]);
      BackOfRune(s, n);
      BlankGrows(more, s[n..]);
      b := more + s[n..];
      TwoDrops(s, n, TrimRight(s[..n]), more, b);
    }
  }

  lemma TwoDrops(s: string, n: nat, left: string, more: string, b: string)
    requires n <= |s| && s[..n] == left + more && b == more + s[n..]
    ensures s == left + b
  {
    assert s == s[..n] + s[n..];
  }

  lemma BackOfRune(s: string, n: nat)
    requires n == |s| - BackSpace(s) < |s|
    ensures FrontSpace(s[n..]) == |s| - n
  {
  }

  lemma {:induction false} TrimLeftOf(a: string, t: string)
    requires Blank(a)
    ensures TrimLeft(a + t) == TrimLeft(t)
    decreases |a|
  {
    if a == "" {
      assert a + t == t;
    } else {
      var n := FrontSpace(a);
      FrontStays(a, t);
      assert (a + t)[n..] == a[n..] + t;
      TrimLeftOf(a[n..], t);
    }
  }

  lemma {:induction false} TrimRightOf(t: string, b: string)
    requires Blank(b)
    ensures TrimRight(t + b) == TrimRight(t)
    decreases |b|
  {
    if b == "" {
      assert t + b == t;
    } else {
      var n := |b| - BackSpace(b);
      BlankEnd(b);
      BackStays(t, b);
      assert (t + b)[..|t| + n] == t + b[..n];
      TrimRightOf(t, b[..n]);
    }
  }

  lemma NoFront(r: string)
    ensures FrontSpace(r) == 0 <==> forall w :: Space(w) ==> !(w <= r)
  {
    FrontIsSpace(r);
    if w :| Space(w) && w <= r {
      SpaceInFront(r, w);
    }
  }

  lemma NoBack(r: string)
    ensures BackSpace(r) == 0 <==> forall w :: Space(w) ==> !EndsWith(r, w)
  {
    BackIsSpace(r);
    if w :| Space(w) && EndsWith(r, w) {
      SpaceAtBack(r, w);
    }
    if BackSpace(r) > 0 {
      assert EndsWith(r, r[|r| - BackSpace(r)..]);
    }
  }

  /** s is r between two blank texts. */
  ghost predicate Between(s: string, r: string) {
    exists a, b :: Blank(a) && Blank(b) && s == a + r + b
  }

  lemma TrimsBetween(s: string, r: string)
    requires FrontSpace(r) == 0 && BackSpace(r) == 0 && Between(s, r)
    ensures TrimSpace(s) == r
  {
    var a, b :| Blank(a) && Blank(b) && s == a + r + b;
    assert s == a + (r + b);
    TrimLeftOf(a, r + b);
    if r == "" {
      assert r + b == b + "";
      TrimLeftOf(b, "");
    } else {
      NoRuneAcross(r, b);
      TrimRightOf(r, b);
    }
  }

  lemma TrimLeaves(s: string)
    ensures FrontSpace(TrimSpace(s)) == 0 && BackSpace(TrimSpace(s)) == 0 && Between(s, TrimSpace(s))
  {
    TrimLeftDone(s);
    TrimRightStaysLeftTrimmed(TrimLeft(s));
    TrimRightDone(TrimLeft(s));
    TrimmedBetween(s, TrimLeft(s), TrimSpace(s));
  }

  lemma TrimmedBetween(s: string, left: string, r: string)
    requires left == TrimLeft(s) && r == TrimRight(left)
    ensures Between(s, r)
  {
    var a := TrimLeftDrops(s);
    var b := TrimRightDrops(left);
    assert s == a + r + b;
  }

  lemma BetweenBlanks(s: string, r: string)
    ensures Between(s, r) <==> BetweenSpaces(s, r)
  {
    if Between(s, r) {
      var a, b :| Blank(a) && Blank(b) && s == a + r + b;
      SpacesAreBlank(a);
      SpacesAreBlank(b);
    }
    if BetweenSpaces(s, r) {
      var a, b :| OnlySpaces(a) && OnlySpaces(b) && s == a + r + b;
      SpacesAreBlank(a);
      SpacesAreBlank(b);
    }
  }

  lemma TidyExactly(r: string)
    ensures Tidy(r) <==> FrontSpace(r) == 0 && BackSpace(r) == 0
  {
    NoFront(r);
    NoBack(r);
  }

  lemma TrimsInside(s: string, r: string)
    ensures TrimSpace(s) == r <==> FrontSpace(r) == 0 && BackSpace(r) == 0 && Between(s, r)
  {
    if TrimSpace(s) == r {
      TrimLeaves(s);
    } else if FrontSpace(r) == 0 && BackSpace(r) == 0 && Between(s, r) {
      TrimsBetween(s, r);
    }
  }

  /** Trimming leaves r exactly when s is r between white-space runes and r has none at its ends. */
  lemma TrimsExactly(s: string, r: string)
    ensures TrimSpace(s) == r <==> Leaves(s, r)
  {
    TidyExactly(r);
    BetweenBlanks(s, r);
    TrimsInside(s, r);
  }
}
